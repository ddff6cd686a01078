/** The RC2 block cipher (RFC 2268; crypto/pkcs12/internal/rc2/rc2.go). */
module Rc2 {
  import opened Bits
  import Words

  type Word = x: int | 0 <= x < 0x1_0000

  type Key = k: seq<Word> | |k| == 64 witness seq(64, _ => 0)

  datatype Block = Block(r0: Word, r1: Word, r2: Word, r3: Word)

  /** 16-bit words wrap around. */
  function Wrap(x: int): Word {
    x % 0x1_0000
  }

  function Not(x: Word): Word {
    0xffff - x
  }

  lemma DivNonNegative(x: nat, p: int)
    requires p >= 1
    ensures x / p >= 0
  {
  }

  /** `x >> (16 - b) | x << b` in 16 bits. */
  function Rotl16(x: Word, b: nat): (r: nat)
    requires b <= 16
  {
    DivNonNegative(x, Pow2(16 - b));
    BitOr(x / Pow2(16 - b), Wrap(x * Pow2(b)))
  }

  /** A rotation exchanges the high b and the low 16 - b bits. */
  lemma RotationSwaps(x: Word, b: nat, hi: nat, lo: nat)
    requires b <= 16 && x == hi * Pow2(16 - b) + lo && lo < Pow2(16 - b)
    ensures hi < Pow2(b) && Rotl16(x, b) == lo * Pow2(b) + hi < 0x1_0000
  {
    Pow2Add(16 - b, b);
    PowersOfTwo();
    var p, q := Pow2(16 - b), Pow2(b);
    assert p * q == 0x1_0000;
    hide Pow2;
    SplitWord(x, p, q, hi, lo);
    ModUnique(x, p, hi, lo);
    BitOrIsSum(hi, lo, b);
  }

  lemma SplitWord(x: Word, p: int, q: int, hi: nat, lo: nat)
    requires p >= 1 && q >= 1 && p * q == 0x1_0000 && x == hi * p + lo && lo < p
    ensures hi < q && lo * q + hi < 0x1_0000 && Wrap(x * q) == lo * q
  {
    if hi >= q {
      MulMono(q, hi, p);
    }
    MulMono(lo + 1, p, q);
    MulMono(0, lo, q);
    assert x * q == hi * 0x1_0000 + lo * q by {
      Assoc(hi, p, q);
    }
    ModUnique(x * q, 0x1_0000, hi, lo * q);
  }

  /** Turning by the rest of a full turn undoes a rotation. */
  lemma RotationsCancel(x: Word, b: nat)
    requires b <= 16
    ensures Rotl16(x, b) < 0x1_0000 && Rotl16(Rotl16(x, b), 16 - b) == x
  {
    hide Rotl16;
    var p := Pow2(16 - b);
    hide Pow2;
    DivNonNegative(x, p);
    var hi, lo := x / p, x % p;
    assert x == hi * p + lo;
    RotationSwaps(x, b, hi, lo);
    RotationSwaps(Rotl16(x, b), 16 - b, lo, hi);
  }

  /** What a word is changed by: a key word, and bits of two others selected by a third. */
  function Mask(k: Word, select: Word, one: Word, zero: Word): int {
    k + BitAnd(select, one) + BitAnd(Not(select), zero)
  }

  function BitOf(x: int, i: nat): int {
    x / Pow2(i) % 2
  }

  lemma LowestBit(x: int, i: nat)
    ensures BitOf(x, 0) == x % 2 && BitOf(x, i + 1) == BitOf(x / 2, i)
  {
    DivOne(x);
    DivDiv(x, 2, Pow2(i));
  }

  /** What words of n bits select, and the same one bit further. */
  lemma SelectionStep(select: nat, one: nat, zero: nat, p: nat)
    requires p >= 1 && select < 2 * p
    ensures
      var v := BitAnd(select, one) + BitAnd(2 * p - 1 - select, zero);
      && v % 2 == (if select % 2 == 1 then one % 2 else zero % 2)
      && v / 2 == BitAnd(select / 2, one / 2) + BitAnd(p - 1 - select / 2, zero / 2)
  {
    hide BitAnd;
    var rest := 2 * p - 1 - select;
    var h, d := select / 2, select % 2;
    assert select == 2 * h + d;
    ModUnique(rest, 2, p - 1 - h, 1 - d);
    AndStep(select, one);
    AndStep(rest, zero);
    var v, w := BitAnd(select, one) + BitAnd(rest, zero), BitAnd(h, one / 2) + BitAnd(p - 1 - h, zero / 2);
    ModUnique(v, 2, w, if d == 1 then one % 2 else zero % 2);
  }

  lemma AndStep(x: nat, y: nat)
    ensures BitAnd(x, y) == (if x % 2 == 1 && y % 2 == 1 then 1 else 0) + 2 * BitAnd(x / 2, y / 2)
  {
  }

  lemma {:induction false} SelectionBits(select: nat, one: nat, zero: nat, n: nat, i: nat)
    requires select < Pow2(n) && i < n
    ensures
      var v := BitAnd(select, one) + BitAnd(Pow2(n) - 1 - select, zero);
      BitOf(v, i) == if BitOf(select, i) == 1 then BitOf(one, i) else BitOf(zero, i)
    decreases i
  {
    hide BitAnd;
    hide BitOf;
    hide Pow2;
    Pow2Add(1, n - 1);
    PowersOfTwo();
    SelectionStep(select, one, zero, Pow2(n - 1));
    var v := BitAnd(select, one) + BitAnd(Pow2(n) - 1 - select, zero);
    if i == 0 {
      LowestBit(v, 0);
      LowestBit(select, 0);
      LowestBit(one, 0);
      LowestBit(zero, 0);
    } else {
      LowestBit(v, i - 1);
      LowestBit(select, i - 1);
      LowestBit(one, i - 1);
      LowestBit(zero, i - 1);
      SelectionBits(select / 2, one / 2, zero / 2, n - 1, i - 1);
    }
  }

  lemma {:induction false} SelectionBound(select: nat, one: nat, zero: nat, n: nat)
    requires select < Pow2(n) && one < Pow2(n) && zero < Pow2(n)
    ensures 0 <= BitAnd(select, one) + BitAnd(Pow2(n) - 1 - select, zero) < Pow2(n)
  {
    hide BitAnd;
    if n > 0 {
      SelectionStep(select, one, zero, Pow2(n - 1));
      SelectionBound(select / 2, one / 2, zero / 2, n - 1);
    } else {
      NoSelection();
    }
  }

  lemma NoSelection()
    ensures BitAnd(0, 0) == 0
  {
  }

  /** Every bit added to the key word is that of one where the selecting word has a 1, and that of zero elsewhere. */
  lemma MaskBits(k: Word, select: Word, one: Word, zero: Word, i: nat)
    requires i < 16
    ensures BitOf(Mask(k, select, one, zero) - k, i) == BitOf(if BitOf(select, i) == 1 then one else zero, i)
    ensures 0 <= Mask(k, select, one, zero) - k < 0x1_0000
  {
    PowersOfTwo();
    SelectionBound(select, one, zero, 16);
    SelectionBits(select, one, zero, 16, i);
  }

  function MixWord(r: Word, mask: int, b: nat): Word
    requires b <= 16
  {
    RotationsCancel(Wrap(r + mask), b);
    Rotl16(Wrap(r + mask), b)
  }

  function UnmixWord(r: Word, mask: int, b: nat): Word
    requires b <= 16
  {
    RotationsCancel(r, 16 - b);
    Wrap(Rotl16(r, 16 - b) - mask)
  }

  lemma MixUnmixWord(r: Word, mask: int, b: nat)
    requires b <= 16
    ensures UnmixWord(MixWord(r, mask, b), mask, b) == r && MixWord(UnmixWord(r, mask, b), mask, b) == r
  {
    hide Rotl16;
    hide Pow2;
    hide Wrap;
    RotationsCancel(Wrap(r + mask), b);
    RotationsCancel(r, 16 - b);
    assert 16 - (16 - b) == b;
    WrapCancels(r, mask);
    WrapCancels(Rotl16(r, 16 - b), mask);
  }

  lemma WrapCancels(r: Word, mask: int)
    ensures Wrap(Wrap(r + mask) - mask) == r && Wrap(Wrap(r - mask) + mask) == r
  {
  }

  // The mixing round of section 3.2 of RFC 2268, with key words j to j + 3.

  function Mix(k: Key, j: nat, b: Block): Block
    requires j + 4 <= 64
  {
    var r0 := MixWord(b.r0, Mask(k[j], b.r3, b.r2, b.r1), 1);
    var r1 := MixWord(b.r1, Mask(k[j + 1], r0, b.r3, b.r2), 2);
    var r2 := MixWord(b.r2, Mask(k[j + 2], r1, r0, b.r3), 3);
    var r3 := MixWord(b.r3, Mask(k[j + 3], r2, r1, r0), 5);
    Block(r0, r1, r2, r3)
  }

  function Unmix(k: Key, j: nat, b: Block): Block
    requires j + 4 <= 64
  {
    var r3 := UnmixWord(b.r3, Mask(k[j + 3], b.r2, b.r1, b.r0), 5);
    var r2 := UnmixWord(b.r2, Mask(k[j + 2], b.r1, b.r0, r3), 3);
    var r1 := UnmixWord(b.r1, Mask(k[j + 1], b.r0, r3, r2), 2);
    var r0 := UnmixWord(b.r0, Mask(k[j], r3, r2, r1), 1);
    Block(r0, r1, r2, r3)
  }

  lemma MixUnmix(k: Key, j: nat, b: Block)
    requires j + 4 <= 64
    ensures Unmix(k, j, Mix(k, j, b)) == b && Mix(k, j, Unmix(k, j, b)) == b
  {
    var m, u := Mix(k, j, b), Unmix(k, j, b);
    hide Mask;
    hide MixWord;
    hide UnmixWord;
    MixUnmixWord(b.r0, Mask(k[j], b.r3, b.r2, b.r1), 1);
    MixUnmixWord(b.r1, Mask(k[j + 1], m.r0, b.r3, b.r2), 2);
    MixUnmixWord(b.r2, Mask(k[j + 2], m.r1, m.r0, b.r3), 3);
    MixUnmixWord(b.r3, Mask(k[j + 3], m.r2, m.r1, m.r0), 5);
    MixUnmixWord(b.r3, Mask(k[j + 3], b.r2, b.r1, b.r0), 5);
    MixUnmixWord(b.r2, Mask(k[j + 2], b.r1, b.r0, u.r3), 3);
    MixUnmixWord(b.r1, Mask(k[j + 1], b.r0, u.r3, u.r2), 2);
    MixUnmixWord(b.r0, Mask(k[j], u.r3, u.r2, u.r1), 1);
  }

  /** The key word that the low six bits of a word of the block select. */
  function Selected(k: Key, r: Word): Word {
    k[r % 64]
  }

  // The mashing round of section 3.4.

  function Mash(k: Key, b: Block): Block {
    var r0 := Wrap(b.r0 + Selected(k, b.r3));
    var r1 := Wrap(b.r1 + Selected(k, r0));
    var r2 := Wrap(b.r2 + Selected(k, r1));
    Block(r0, r1, r2, Wrap(b.r3 + Selected(k, r2)))
  }

  function Unmash(k: Key, b: Block): Block {
    var r3 := Wrap(b.r3 - Selected(k, b.r2));
    var r2 := Wrap(b.r2 - Selected(k, b.r1));
    var r1 := Wrap(b.r1 - Selected(k, b.r0));
    Block(Wrap(b.r0 - Selected(k, r3)), r1, r2, r3)
  }

  lemma MashUnmash(k: Key, b: Block)
    ensures Unmash(k, Mash(k, b)) == b && Mash(k, Unmash(k, b)) == b
  {
    var m, u := Mash(k, b), Unmash(k, b);
    hide Selected;
    hide Wrap;
    WrapCancels(b.r0, Selected(k, b.r3));
    WrapCancels(b.r1, Selected(k, m.r0));
    WrapCancels(b.r2, Selected(k, m.r1));
    WrapCancels(b.r3, Selected(k, m.r2));
    WrapCancels(b.r3, Selected(k, b.r2));
    WrapCancels(b.r2, Selected(k, b.r1));
    WrapCancels(b.r1, Selected(k, b.r0));
    WrapCancels(b.r0, Selected(k, u.r3));
  }

  /** n mixing rounds from key word j on. */
  function Mixes(k: Key, j: nat, n: nat, b: Block): Block
    requires j + 4 * n <= 64
  {
    if n == 0 then b else Mix(k, j + 4 * (n - 1), Mixes(k, j, n - 1, b))
  }

  /** The same rounds backwards, down to key word j. */
  function Unmixes(k: Key, j: nat, n: nat, b: Block): Block
    requires j + 4 * n <= 64
  {
    if n == 0 then b else Unmixes(k, j, n - 1, Unmix(k, j + 4 * (n - 1), b))
  }

  lemma {:induction false} MixesUnmixes(k: Key, j: nat, n: nat, b: Block)
    requires j + 4 * n <= 64
    ensures Unmixes(k, j, n, Mixes(k, j, n, b)) == b && Mixes(k, j, n, Unmixes(k, j, n, b)) == b
  {
    if n > 0 {
      var last := j + 4 * (n - 1);
      MixUnmix(k, last, Mixes(k, j, n - 1, b));
      MixesUnmixes(k, j, n - 1, b);
      MixUnmix(k, last, b);
      MixesUnmixes(k, j, n - 1, Unmix(k, last, b));
      hide Mix;
      hide Unmix;
    }
  }

  /** Section 3: five mixing rounds, a mashing round, six mixing rounds, a mashing round, five mixing rounds. */
  function EncryptBlock(k: Key, b: Block): Block {
    Mixes(k, 44, 5, Mash(k, Mixes(k, 20, 6, Mash(k, Mixes(k, 0, 5, b)))))
  }

  /** Section 4: the same backwards. */
  function DecryptBlock(k: Key, b: Block): Block {
    Unmixes(k, 0, 5, Unmash(k, Unmixes(k, 20, 6, Unmash(k, Unmixes(k, 44, 5, b)))))
  }

  /** For every key table, decryption undoes encryption and encryption undoes decryption. */
  lemma RoundTrip(k: Key, b: Block)
    ensures DecryptBlock(k, EncryptBlock(k, b)) == b && EncryptBlock(k, DecryptBlock(k, b)) == b
  {
    hide Mixes;
    hide Unmixes;
    hide Mash;
    hide Unmash;
    var b1 := Mixes(k, 0, 5, b);
    var b2 := Mixes(k, 20, 6, Mash(k, b1));
    MixesUnmixes(k, 0, 5, b);
    MashUnmash(k, b1);
    MixesUnmixes(k, 20, 6, Mash(k, b1));
    MashUnmash(k, b2);
    MixesUnmixes(k, 44, 5, Mash(k, b2));
    var d1 := Unmixes(k, 44, 5, b);
    var d2 := Unmixes(k, 20, 6, Unmash(k, d1));
    MixesUnmixes(k, 44, 5, b);
    MashUnmash(k, d1);
    MixesUnmixes(k, 20, 6, Unmash(k, d1));
    MashUnmash(k, d2);
    MixesUnmixes(k, 0, 5, Unmash(k, d2));
  }

  // ---------------------------------------------------------------------------------------
  // Blocks as bytes
  // ---------------------------------------------------------------------------------------

  function LoadWord(s: seq<Byte>, i: nat): Word
    requires i + 1 < |s|
  {
    At(s, i) + 0x100 * At(s, i + 1)
  }

  function LoadBlock(s: seq<Byte>): Block
    requires |s| >= 8
  {
    Block(LoadWord(s, 0), LoadWord(s, 2), LoadWord(s, 4), LoadWord(s, 6))
  }

  function BlockBytes(b: Block): (s: seq<Byte>)
    ensures |s| == 8
  {
    [b.r0 % 0x100, b.r0 / 0x100, b.r1 % 0x100, b.r1 / 0x100, b.r2 % 0x100, b.r2 / 0x100, b.r3 % 0x100, b.r3 / 0x100]
  }

  lemma BlocksAreBytes(b: Block, s: seq<Byte>)
    requires |s| == 8
    ensures LoadBlock(BlockBytes(b)) == b && BlockBytes(LoadBlock(s)) == s
  {
    var l := LoadBlock(s);
    forall i | i in {0, 2, 4, 6} ensures LoadWord(s, i) % 0x100 == At(s, i) && LoadWord(s, i) / 0x100 == At(s, i + 1) {
      ModUnique(LoadWord(s, i), 0x100, At(s, i + 1), At(s, i));
    }
  }

  /** Eight bytes that are encrypted and then decrypted, or the other way round, are the same again. */
  lemma BytesRoundTrip(k: Key, s: seq<Byte>)
    requires |s| == 8
    ensures
      var e, d := BlockBytes(EncryptBlock(k, LoadBlock(s))), BlockBytes(DecryptBlock(k, LoadBlock(s)));
      && BlockBytes(DecryptBlock(k, LoadBlock(e))) == s
      && BlockBytes(EncryptBlock(k, LoadBlock(d))) == s
  {
    hide EncryptBlock;
    hide DecryptBlock;
    hide LoadBlock;
    hide BlockBytes;
    RoundTrip(k, LoadBlock(s));
    BlocksAreBytes(EncryptBlock(k, LoadBlock(s)), s);
    BlocksAreBytes(DecryptBlock(k, LoadBlock(s)), s);
  }

  class Cipher {
    const k: Key

    constructor (pi: Table, key: seq<Byte>, t1: nat)
      requires key != [] && 1 <= t1 <= 1024
      ensures k == KeyTable(pi, key, t1)
    {
      var table := ExpandKey(pi, key, t1);
      k := table;
    }

    /** Mixing rounds while j <= last. */
    method MixRounds(j0: nat, last: nat, b0: Block) returns (j: nat, b: Block)
      requires j0 % 4 == 0 && last % 4 == 0 && last < 64 && j0 <= last + 4
      ensures j == last + 4 && b == Mixes(k, j0, (last + 4 - j0) / 4, b0)
    {
      hide MixWord;
      hide Mask;
      var r0, r1, r2, r3 := b0.r0, b0.r1, b0.r2, b0.r3;
      j := j0;
      ghost var n := 0;
      while j <= last
        invariant j == j0 + 4 * n && j <= last + 4
        invariant Block(r0, r1, r2, r3) == Mixes(k, j0, n, b0)
      {
        ghost var before := Block(r0, r1, r2, r3);
        r0 := MixWord(r0, Mask(k[j], r3, r2, r1), 1);
        j := j + 1;
        r1 := MixWord(r1, Mask(k[j], r0, r3, r2), 2);
        j := j + 1;
        r2 := MixWord(r2, Mask(k[j], r1, r0, r3), 3);
        j := j + 1;
        r3 := MixWord(r3, Mask(k[j], r2, r1, r0), 5);
        j := j + 1;
        assert Block(r0, r1, r2, r3) == Mix(k, j0 + 4 * n, before);
        n := n + 1;
      }
      b := Block(r0, r1, r2, r3);
    }

    /** Mixing rounds backwards while j >= last. */
    method UnmixRounds(j0: int, last: nat, b0: Block) returns (j: int, b: Block)
      requires j0 % 4 == 3 && last % 4 == 0 && j0 < 64 && last <= j0 + 1
      ensures j == last - 1 && b == Unmixes(k, last, (j0 + 1 - last) / 4, b0)
    {
      hide UnmixWord;
      hide Mask;
      var r0, r1, r2, r3 := b0.r0, b0.r1, b0.r2, b0.r3;
      j := j0;
      ghost var n := (j0 + 1 - last) / 4;
      ghost var all := Unmixes(k, last, n, b0);
      while j >= last
        invariant n >= 0 && j == last + 4 * n - 1 && j <= j0
        invariant Unmixes(k, last, n, Block(r0, r1, r2, r3)) == all
      {
        ghost var before := Block(r0, r1, r2, r3);
        r3 := UnmixWord(r3, Mask(k[j], r2, r1, r0), 5);
        j := j - 1;
        r2 := UnmixWord(r2, Mask(k[j], r1, r0, r3), 3);
        j := j - 1;
        r1 := UnmixWord(r1, Mask(k[j], r0, r3, r2), 2);
        j := j - 1;
        r0 := UnmixWord(r0, Mask(k[j], r3, r2, r1), 1);
        j := j - 1;
        n := n - 1;
        assert Block(r0, r1, r2, r3) == Unmix(k, last + 4 * n, before);
      }
      b := Block(r0, r1, r2, r3);
    }

    /** Encrypts the first eight bytes of src into dst, which may be the same. */
    method Encrypt(dst: array<Byte>, src: array<Byte>)
      requires dst.Length >= 8 && src.Length >= 8
      modifies dst
      ensures dst[..8] == BlockBytes(EncryptBlock(k, LoadBlock(old(src[..])))) && dst[8..] == old(dst[8..])
    {
      hide Mixes;
      var b := LoadBlock(src[..]);
      var j := 0;
      j, b := MixRounds(j, 16, b);
      b := MashRound(b);
      j, b := MixRounds(j, 40, b);
      b := MashRound(b);
      j, b := MixRounds(j, 60, b);
      Store(dst, b);
    }

    /** Decrypts the first eight bytes of src into dst, which may be the same. */
    method Decrypt(dst: array<Byte>, src: array<Byte>)
      requires dst.Length >= 8 && src.Length >= 8
      modifies dst
      ensures dst[..8] == BlockBytes(DecryptBlock(k, LoadBlock(old(src[..])))) && dst[8..] == old(dst[8..])
    {
      hide Unmixes;
      var b := LoadBlock(src[..]);
      var j := 63;
      j, b := UnmixRounds(j, 44, b);
      b := UnmashRound(b);
      j, b := UnmixRounds(j, 20, b);
      b := UnmashRound(b);
      j, b := UnmixRounds(j, 0, b);
      Store(dst, b);
    }

    method MashRound(b: Block) returns (m: Block)
      ensures m == Mash(k, b)
    {
      var r0: int, r1: int, r2: int, r3: int := b.r0, b.r1, b.r2, b.r3;
      r0 := Wrap(r0 + Selected(k, r3));
      r1 := Wrap(r1 + Selected(k, r0));
      r2 := Wrap(r2 + Selected(k, r1));
      r3 := Wrap(r3 + Selected(k, r2));
      return Block(r0, r1, r2, r3);
    }

    method UnmashRound(b: Block) returns (m: Block)
      ensures m == Unmash(k, b)
    {
      var r0: int, r1: int, r2: int, r3: int := b.r0, b.r1, b.r2, b.r3;
      r3 := Wrap(r3 - Selected(k, r2));
      r2 := Wrap(r2 - Selected(k, r1));
      r1 := Wrap(r1 - Selected(k, r0));
      r0 := Wrap(r0 - Selected(k, r3));
      return Block(r0, r1, r2, r3);
    }
  }

  method Store(dst: array<Byte>, b: Block)
    requires dst.Length >= 8
    modifies dst
    ensures dst[..8] == BlockBytes(b) && dst[8..] == old(dst[8..])
  {
    dst[0], dst[1] := b.r0 % 0x100, b.r0 / 0x100;
    dst[2], dst[3] := b.r1 % 0x100, b.r1 / 0x100;
    dst[4], dst[5] := b.r2 % 0x100, b.r2 / 0x100;
    dst[6], dst[7] := b.r3 % 0x100, b.r3 / 0x100;
  }

  // ---------------------------------------------------------------------------------------
  // Key expansion (section 2)
  // ---------------------------------------------------------------------------------------

  /** A substitution table as in section 2; nothing here depends on its contents, which module Rc2Vectors states. */
  type Table = t: seq<Byte> | |t| == 256 witness seq(256, i => i)

  function Xor(x: Byte, y: Byte): Byte {
    PowersOfTwo();
    Words.XorBound(x, y, 8);
    Words.BitXor(x, y)
  }

  /** The first n bytes of the key, stretched. */
  function Stretched(pi: Table, key: seq<Byte>, n: nat): (l: seq<Byte>)
    requires key != []
    ensures |l| == n
  {
    if n <= |key| then key[..n]
    else
      var l := Stretched(pi, key, n - 1);
      l + [pi[(At(l, n - 2) + At(l, n - 1 - |key|)) % 0x100]]
  }

  /** The number of whole bytes that t1 bits take, and of the bits of the first of these that count. */
  function EffectiveBytes(t1: nat): (t8: nat)
    requires 1 <= t1 <= 1024
    ensures 1 <= t8 <= 128
  {
    (t1 + 7) / 8
  }

  function TopBits(t1: nat): (m: nat)
    requires 1 <= t1 <= 1024
    ensures 1 <= m <= 8
  {
    8 + t1 - 8 * EffectiveBytes(t1)
  }

  /** The t1 bits that decide about the table: the last bytes of the stretched key, without the top bits. */
  function Effective(pi: Table, key: seq<Byte>, t1: nat): (e: seq<Byte>)
    requires key != [] && 1 <= t1 <= 1024
    ensures |e| == EffectiveBytes(t1)
  {
    var t8, l := EffectiveBytes(t1), Stretched(pi, key, 128);
    [BitAndByte(l[128 - t8], TopBits(t1))] + l[129 - t8..]
  }

  function BitAndByte(x: Byte, m: nat): Byte
    requires m <= 8
  {
    ModBelow(x, Pow2(m));
    x % Pow2(m)
  }

  lemma ModBelow(x: Byte, m: int)
    requires m >= 1
    ensures 0 <= x % m <= x
  {
  }

  /** n bytes in front of the last ones, from the back. */
  function Backward(pi: Table, last: seq<Byte>, n: nat): (l: seq<Byte>)
    requires last != []
    ensures |l| == |last| + n
  {
    if n == 0 then last
    else
      var l := Backward(pi, last, n - 1);
      [pi[Xor(l[0], l[|last| - 1])]] + l
  }

  function KeyWords(l: seq<Byte>): Key
    requires |l| == 128
  {
    seq(64, i requires 0 <= i < 64 => LoadWord(l, 2 * i))
  }

  function KeyTable(pi: Table, key: seq<Byte>, t1: nat): Key
    requires key != [] && 1 <= t1 <= 1024
  {
    var e := Effective(pi, key, t1);
    KeyWords(Backward(pi, [pi[e[0]]] + e[1..], 128 - |e|))
  }

  /** The last step of the mask: 255 % 2^m selects the low m bits. */
  lemma MaskSelects(x: Byte, m: nat)
    requires 1 <= m <= 8
    ensures 255 % Pow2(m) == Pow2(m) - 1 && BitAnd(x, Pow2(m) - 1) == BitAndByte(x, m)
  {
    Pow2Add(m, 8 - m);
    PowersOfTwo();
    var p, q := Pow2(m), Pow2(8 - m);
    hide Pow2;
    MulMono(1, p, q);
    assert 255 == (q - 1) * p + (p - 1);
    ModUnique(255, p, q - 1, p - 1);
    MaskIsMod(x, m);
  }

  /** The key table, computed in a buffer of 128 bytes: forwards, and then backwards. */
  method ExpandKey(pi: Table, key: seq<Byte>, t1: nat) returns (k: Key)
    requires key != [] && 1 <= t1 <= 1024
    ensures k == KeyTable(pi, key, t1)
  {
    hide Stretched;
    hide Backward;
    hide Pow2;
    hide BitAnd;
    hide BitAndByte;
    var l := new Byte[128](_ => 0);
    Stretch(pi, key, l);
    var t8 := (t1 + 7) / 8;
    var tm := 255 % Pow2(8 + t1 - 8 * t8);
    MaskSelects(l[128 - t8], TopBits(t1));
    ghost var e := Effective(pi, key, t1);
    assert e == [BitAndByte(l[128 - t8], TopBits(t1))] + l[..][129 - t8..];
    l[128 - t8] := pi[BitAnd(l[128 - t8], tm)];
    assert l[128 - t8..] == [pi[e[0]]] + e[1..];
    FillFront(pi, l, t8);
    k := ToWords(l);
  }

  method Stretch(pi: Table, key: seq<Byte>, l: array<Byte>)
    requires key != [] && l.Length == 128
    modifies l
    ensures l[..] == Stretched(pi, key, 128)
  {
    forall i | 0 <= i < 128 && i < |key| {
      l[i] := key[i];
    }
    var t := |key|;
    var i := t;
    if t >= 128 {
      assert l[..] == key[..128];
      return;
    }
    hide Stretched;
    assert l[..t] == key[..t];
    ghost var done := l[..t];
    WholeKey(pi, key, t);
    while i < 128
      invariant t <= i <= 128
      invariant l[..i] == done && done == Stretched(pi, key, i)
    {
      var x := pi[(At(l[..], i - 1) + At(l[..], (i - t) % 0x100)) % 0x100];
      OneMoreByte(pi, key, i);
      assert l[i - 1] == done[i - 1] && l[i - t] == done[i - t];
      l[i] := x;
      i := i + 1;
      assert l[..i] == l[..i - 1] + [x];
      done := done + [x];
    }
    assert l[..] == l[..128];
  }

  lemma WholeKey(pi: Table, key: seq<Byte>, n: nat)
    requires key != [] && n <= |key|
    ensures Stretched(pi, key, n) == key[..n]
  {
  }

  lemma OneMoreByte(pi: Table, key: seq<Byte>, n: nat)
    requires key != [] && n >= |key|
    ensures var l := Stretched(pi, key, n);
            Stretched(pi, key, n + 1) == l + [pi[(At(l, n - 1) + At(l, n - |key|)) % 0x100]]
  {
  }

  lemma NoneInFront(pi: Table, last: seq<Byte>)
    requires last != []
    ensures Backward(pi, last, 0) == last
  {
  }

  lemma OneMoreInFront(pi: Table, last: seq<Byte>, n: nat)
    requires last != []
    ensures var l := Backward(pi, last, n);
            Backward(pi, last, n + 1) == [pi[Xor(l[0], l[|last| - 1])]] + l
  {
  }

  /** Fills the buffer backwards from its last t8 bytes. */
  method FillFront(pi: Table, l: array<Byte>, t8: nat)
    requires l.Length == 128 && 1 <= t8 <= 128
    modifies l
    ensures l[..] == Backward(pi, old(l[128 - t8..]), 128 - t8)
  {
    hide Xor;
    hide Backward;
    ghost var last, done, n := l[128 - t8..], l[128 - t8..], 0;
    NoneInFront(pi, last);
    var i := 127 - t8;
    while i >= 0
      invariant n == 127 - t8 - i && -1 <= i
      invariant l[i + 1..] == done && done == Backward(pi, last, n)
    {
      var x := pi[Xor(l[i + 1], l[i + t8])];
      OneMoreInFront(pi, last, n);
      assert l[i + 1] == done[0] && l[i + t8] == done[t8 - 1];
      l[i] := x;
      assert l[i..] == [x] + l[i + 1..];
      i := i - 1;
      done := [x] + done;
      n := n + 1;
    }
    assert i == -1 && n == 128 - t8;
    assert l[..] == done;
  }

  method ToWords(l: array<Byte>) returns (k: Key)
    requires l.Length == 128
    ensures k == KeyWords(l[..])
  {
    var words: seq<Word> := [];
    var i := 0;
    while i < 64
      invariant 0 <= i <= 64 && |words| == i
      invariant forall j :: 0 <= j < i ==> words[j] == LoadWord(l[..], 2 * j)
    {
      words := words + [At(l[..], 2 * i) + At(l[..], 2 * i + 1) * 256];
      i := i + 1;
    }
    k := words;
    assert words == KeyWords(l[..]);
  }

  /**
    Of the stretched key, no more than t1 bits count: keys whose last bytes agree, apart from the bits above them,
    encrypt alike.
  */
  lemma EffectiveKeyDecides(pi: Table, key: seq<Byte>, other: seq<Byte>, t1: nat, b: Block)
    requires key != [] && other != [] && 1 <= t1 <= 1024
    requires var l, o, first := Stretched(pi, key, 128), Stretched(pi, other, 128), 128 - EffectiveBytes(t1);
             l[first + 1..] == o[first + 1..] && (l[first] - o[first]) % Pow2(TopBits(t1)) == 0
    ensures EncryptBlock(KeyTable(pi, key, t1), b) == EncryptBlock(KeyTable(pi, other, t1), b)
  {
    var l, o, first := Stretched(pi, key, 128), Stretched(pi, other, 128), 128 - EffectiveBytes(t1);
    hide Stretched;
    hide EncryptBlock;
    SameRemainder(l[first], o[first], Pow2(TopBits(t1)));
    hide Pow2;
  }

  lemma SameRemainder(x: int, y: int, m: int)
    requires m >= 1 && (x - y) % m == 0
    ensures x % m == y % m
  {
    ModUnique(x, m, (x - y) / m + y / m, y % m);
  }

  /** The effective bits are t1 in number: the top byte has the bits left over by the whole bytes. */
  lemma EffectiveBits(pi: Table, key: seq<Byte>, t1: nat)
    requires key != [] && 1 <= t1 <= 1024
    ensures Effective(pi, key, t1)[0] < Pow2(TopBits(t1)) && TopBits(t1) + 8 * (EffectiveBytes(t1) - 1) == t1
  {
  }
}
