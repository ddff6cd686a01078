/**
  The 32-byte form of a field element: FeFromBytes, FeToBytes and the round trip between them.
*/
module FieldBytes {
  import opened Bits
  import opened Field

  // ---------------------------------------------------------------------------------------
  // Reading
  // ---------------------------------------------------------------------------------------

  /** dst = src modulo P; the top bit of src is ignored. */
  method FeFromBytes(dst: array<int>, src: array<Byte>)
    requires dst.Length == 10 && src.Length == 32
    modifies dst
    ensures Cong(Val(dst[..]), LittleEndian(src[..]) % TWO_255) && Range(dst[..], 22)
  {
    ghost var b := src[..];
    var h0 := LoadFour(src[..], 0);
    var h1 := LoadThree(src[..], 4);
    var h2 := LoadThree(src[..], 7);
    var h3 := LoadThree(src[..], 10);
    var h4 := LoadThree(src[..], 13);
    var h5 := LoadFour(src[..], 16);
    var h6 := LoadThree(src[..], 20);
    var h7 := LoadThree(src[..], 23);
    var h8 := LoadThree(src[..], 26);
    var h9 := LoadThree(src[..], 29);
    h9 := Masked23(h9);
    LoadedValue(b);
    FeCombine(dst, h0, h1 * 0x40, h2 * 0x20, h3 * 0x8, h4 * 0x4, h5, h6 * 0x80, h7 * 0x20, h8 * 0x10, h9 * 0x4);
  }

  const TWO_255 := 0x80000000_00000000_00000000_00000000_00000000_00000000_00000000_00000000

  /** `8388607 & x` */
  function Mask23(x: nat): (r: nat) {
    x % 0x80_0000
  }

  method Masked23(x: nat) returns (r: nat)
    ensures r == Mask23(x)
  {
    PowersOfTwo();
    Pow2Add(2, 21);
    MaskIsMod(x, 23);
    r := BitAnd(x, 0x7f_ffff);
  }

  lemma ThreeBytes(b: seq<Byte>, i: nat)
    requires i + 3 <= |b|
    ensures LittleEndianFrom(b, i) == Load3(b, i) + 0x100_0000 * LittleEndianFrom(b, i + 3)
  {
    assert LittleEndianFrom(b, i + 1) == At(b, i + 1) + 256 * LittleEndianFrom(b, i + 2);
  }

  lemma LowWords(b: seq<Byte>)
    requires |b| == 32
    ensures LittleEndian(b) == Load4(b, 0) + 0x1_0000_0000 * (Load3(b, 4) + 0x100_0000 * (Load3(b, 7) + 0x100_0000 *
      (Load3(b, 10) + 0x100_0000 * (Load3(b, 13) + 0x100_0000 * LittleEndianFrom(b, 16)))))
  {
    hide LittleEndianFrom;
    FourBytes(b, 0);
    ThreeBytes(b, 4);
    ThreeBytes(b, 7);
    ThreeBytes(b, 10);
    ThreeBytes(b, 13);
  }

  lemma HighWords(b: seq<Byte>)
    requires |b| == 32
    ensures LittleEndianFrom(b, 16) == Load4(b, 16) + 0x1_0000_0000 * (Load3(b, 20) + 0x100_0000 * (Load3(b, 23) +
      0x100_0000 * (Load3(b, 26) + 0x100_0000 * Load3(b, 29))))
  {
    FourBytes(b, 16);
    ThreeBytes(b, 20);
    ThreeBytes(b, 23);
    ThreeBytes(b, 26);
    ThreeBytes(b, 29);
  }

  lemma LoadedValue(b: seq<Byte>)
    requires |b| == 32
    ensures V10(Load4(b, 0), Load3(b, 4) * 0x40, Load3(b, 7) * 0x20, Load3(b, 10) * 0x8, Load3(b, 13) * 0x4,
              Load4(b, 16), Load3(b, 20) * 0x80, Load3(b, 23) * 0x20, Load3(b, 26) * 0x10, Mask23(Load3(b, 29)) * 0x4)
         == LittleEndian(b) % TWO_255
  {
    ReadWords(b);
    JoinWords(Load4(b, 0), Load3(b, 4), Load3(b, 7), Load3(b, 10), Load3(b, 13), Load4(b, 16), Load3(b, 20),
      Load3(b, 23), Load3(b, 26), Load3(b, 29));
  }

  /** Value of words of 4, 3, 3, 3, 3, 4, 3, 3, 3 and 3 bytes. */
  function Words(w0: int, w1: int, w2: int, w3: int, w4: int, w5: int, w6: int, w7: int, w8: int, w9: int): int {
    w0 + 0x1_0000_0000 * (w1 + 0x100_0000 * (w2 + 0x100_0000 * (w3 + 0x100_0000 * (w4 + 0x100_0000 *
      (w5 + 0x1_0000_0000 * (w6 + 0x100_0000 * (w7 + 0x100_0000 * (w8 + 0x100_0000 * w9))))))))
  }

  lemma ReadWords(b: seq<Byte>)
    requires |b| == 32
    ensures LittleEndian(b) == Words(Load4(b, 0), Load3(b, 4), Load3(b, 7), Load3(b, 10), Load3(b, 13), Load4(b, 16),
      Load3(b, 20), Load3(b, 23), Load3(b, 26), Load3(b, 29))
  {
    LowWords(b);
    HighWords(b);
  }

  lemma JoinWords(w0: int, w1: int, w2: int, w3: int, w4: int, w5: int, w6: int, w7: int, w8: int, w9: int)
    requires 0 <= w0 < 0x1_0000_0000 && 0 <= w5 < 0x1_0000_0000
    requires 0 <= w1 < 0x100_0000 && 0 <= w2 < 0x100_0000 && 0 <= w3 < 0x100_0000 && 0 <= w4 < 0x100_0000
    requires 0 <= w6 < 0x100_0000 && 0 <= w7 < 0x100_0000 && 0 <= w8 < 0x100_0000 && 0 <= w9 < 0x100_0000
    ensures V10(w0, w1 * 0x40, w2 * 0x20, w3 * 0x8, w4 * 0x4, w5, w6 * 0x80, w7 * 0x20, w8 * 0x10, Mask23(w9) * 0x4)
         == Words(w0, w1, w2, w3, w4, w5, w6, w7, w8, w9) % TWO_255
         == Words(w0, w1, w2, w3, w4, w5, w6, w7, w8, Mask23(w9))
  {
    var v := V10(w0, w1 * 0x40, w2 * 0x20, w3 * 0x8, w4 * 0x4, w5, w6 * 0x80, w7 * 0x20, w8 * 0x10, Mask23(w9) * 0x4);
    var q := w9 / 0x80_0000;
    assert w9 == q * 0x80_0000 + Mask23(w9);
    ModUnique(v + q * TWO_255, TWO_255, q, v);
  }

  // ---------------------------------------------------------------------------------------
  // Writing
  // ---------------------------------------------------------------------------------------

  lemma UpperLowHalf(b: seq<Byte>, h2: int, h3: int, h4: int)
    requires |b| == 32
    requires 0 <= h2 < E && 0 <= h3 < O && 0 <= h4 < E
    requires b[7] == ToByte(h2 / 0x20)
    requires b[8] == ToByte(h2 / 0x2000)
    requires b[9] == ToByte(h2 / 0x200000 + h3 * 0x20)
    requires b[10] == ToByte(h3 / 0x8)
    requires b[11] == ToByte(h3 / 0x800)
    requires b[12] == ToByte(h3 / 0x80000 + h4 * 0x40)
    requires b[13] == ToByte(h4 / 0x4)
    requires b[14] == ToByte(h4 / 0x400)
    requires b[15] == ToByte(h4 / 0x40000)
    ensures LittleEndianFrom(b, 7) == (h2 + E * (h3 + O * (h4 + E * LittleEndianFrom(b, 16)))) / 0x20
  {
    var t5 := LittleEndianFrom(b, 16);
    var t4 := h4 + E * t5;
    ModUnique(t4, E, t5, h4);
    var t3 := h3 + O * t4;
    var t2 := h2 + E * t3;
    ByteInside(b, 15, t4, h4, E, t5, 0x40000, 0x1);
    ByteInside(b, 14, t4, h4, E, t5, 0x400, 0x100);
    ByteInside(b, 13, t4, h4, E, t5, 0x4, 0x10000);
    ByteAcross(b, 12, O, E, t3, h3, t4, h4, t5, 0x80000, 0x40, 0x4, 0x1000000);
    ByteInside(b, 11, t3, h3, O, t4, 0x800, 0x40);
    ByteInside(b, 10, t3, h3, O, t4, 0x8, 0x4000);
    ByteAcross(b, 9, E, O, t2, h2, t3, h3, t4, 0x200000, 0x20, 0x8, 0x400000);
    ByteInside(b, 8, t2, h2, E, t3, 0x2000, 0x20);
    ByteInside(b, 7, t2, h2, E, t3, 0x20, 0x2000);
  }

  /** Bytes 0 to 15 hold limbs 0 to 4. */
  lemma LowHalf(b: seq<Byte>, h0: int, h1: int, h2: int, h3: int, h4: int)
    requires |b| == 32
    requires 0 <= h0 < E && 0 <= h1 < O && 0 <= h2 < E && 0 <= h3 < O && 0 <= h4 < E
    requires b[0] == ToByte(h0)
    requires b[1] == ToByte(h0 / 0x100)
    requires b[2] == ToByte(h0 / 0x10000)
    requires b[3] == ToByte(h0 / 0x1000000 + h1 * 0x4)
    requires b[4] == ToByte(h1 / 0x40)
    requires b[5] == ToByte(h1 / 0x4000)
    requires b[6] == ToByte(h1 / 0x400000 + h2 * 0x8)
    requires b[7] == ToByte(h2 / 0x20)
    requires b[8] == ToByte(h2 / 0x2000)
    requires b[9] == ToByte(h2 / 0x200000 + h3 * 0x20)
    requires b[10] == ToByte(h3 / 0x8)
    requires b[11] == ToByte(h3 / 0x800)
    requires b[12] == ToByte(h3 / 0x80000 + h4 * 0x40)
    requires b[13] == ToByte(h4 / 0x4)
    requires b[14] == ToByte(h4 / 0x400)
    requires b[15] == ToByte(h4 / 0x40000)
    ensures LittleEndianFrom(b, 0) == h0 + E * (h1 + O * (h2 + E * (h3 + O * (h4 + E * LittleEndianFrom(b, 16)))))
  {
    UpperLowHalf(b, h2, h3, h4);
    var t3 := h3 + O * (h4 + E * LittleEndianFrom(b, 16));
    var t2 := h2 + E * t3;
    var t1 := h1 + O * t2;
    var t0 := h0 + E * t1;
    DivOne(h0);
    DivOne(t0);
    ByteAcross(b, 6, O, E, t1, h1, t2, h2, t3, 0x400000, 0x8, 0x20, 0x200000);
    ByteInside(b, 5, t1, h1, O, t2, 0x4000, 0x8);
    ByteInside(b, 4, t1, h1, O, t2, 0x40, 0x800);
    ByteAcross(b, 3, E, O, t0, h0, t1, h1, t2, 0x1000000, 0x4, 0x40, 0x80000);
    ByteInside(b, 2, t0, h0, E, t1, 0x10000, 0x4);
    ByteInside(b, 1, t0, h0, E, t1, 0x100, 0x400);
    ByteInside(b, 0, t0, h0, E, t1, 0x1, 0x40000);
  }

  lemma UpperHighHalf(b: seq<Byte>, h7: int, h8: int, h9: int)
    requires |b| == 32
    requires 0 <= h7 < O && 0 <= h8 < E && 0 <= h9 < O
    requires b[23] == ToByte(h7 / 0x20)
    requires b[24] == ToByte(h7 / 0x2000)
    requires b[25] == ToByte(h7 / 0x200000 + h8 * 0x10)
    requires b[26] == ToByte(h8 / 0x10)
    requires b[27] == ToByte(h8 / 0x1000)
    requires b[28] == ToByte(h8 / 0x100000 + h9 * 0x40)
    requires b[29] == ToByte(h9 / 0x4)
    requires b[30] == ToByte(h9 / 0x400)
    requires b[31] == ToByte(h9 / 0x40000)
    ensures LittleEndianFrom(b, 23) == (h7 + O * (h8 + E * (h9))) / 0x20
  {
    var t9: int := h9;
    var t8 := h8 + E * t9;
    var t7 := h7 + O * t8;
    ByteInside(b, 31, t9, h9, 0x4000000, 0, 0x40000, 0x1);
    ByteInside(b, 30, t9, h9, 0x4000000, 0, 0x400, 0x100);
    ByteInside(b, 29, t9, h9, 0x4000000, 0, 0x4, 0x10000);
    ByteAcross(b, 28, E, E, t8, h8, t9, h9, 0, 0x100000, 0x40, 0x4, 0x1000000);
    ByteInside(b, 27, t8, h8, E, t9, 0x1000, 0x40);
    ByteInside(b, 26, t8, h8, E, t9, 0x10, 0x4000);
    ByteAcross(b, 25, O, E, t7, h7, t8, h8, t9, 0x200000, 0x10, 0x10, 0x400000);
    ByteInside(b, 24, t7, h7, O, t8, 0x2000, 0x10);
    ByteInside(b, 23, t7, h7, O, t8, 0x20, 0x1000);
  }

  /** Bytes 16 to 31 hold limbs 5 to 9. */
  lemma HighHalf(b: seq<Byte>, h5: int, h6: int, h7: int, h8: int, h9: int)
    requires |b| == 32
    requires 0 <= h5 < O && 0 <= h6 < E && 0 <= h7 < O && 0 <= h8 < E && 0 <= h9 < O
    requires b[16] == ToByte(h5)
    requires b[17] == ToByte(h5 / 0x100)
    requires b[18] == ToByte(h5 / 0x10000)
    requires b[19] == ToByte(h5 / 0x1000000 + h6 * 0x2)
    requires b[20] == ToByte(h6 / 0x80)
    requires b[21] == ToByte(h6 / 0x8000)
    requires b[22] == ToByte(h6 / 0x800000 + h7 * 0x8)
    requires b[23] == ToByte(h7 / 0x20)
    requires b[24] == ToByte(h7 / 0x2000)
    requires b[25] == ToByte(h7 / 0x200000 + h8 * 0x10)
    requires b[26] == ToByte(h8 / 0x10)
    requires b[27] == ToByte(h8 / 0x1000)
    requires b[28] == ToByte(h8 / 0x100000 + h9 * 0x40)
    requires b[29] == ToByte(h9 / 0x4)
    requires b[30] == ToByte(h9 / 0x400)
    requires b[31] == ToByte(h9 / 0x40000)
    ensures LittleEndianFrom(b, 16) == h5 + O * (h6 + E * (h7 + O * (h8 + E * (h9))))
  {
    UpperHighHalf(b, h7, h8, h9);
    var t8 := h8 + E * (h9);
    var t7 := h7 + O * t8;
    var t6 := h6 + E * t7;
    var t5 := h5 + O * t6;
    DivOne(h5);
    DivOne(t5);
    ByteAcross(b, 22, E, O, t6, h6, t7, h7, t8, 0x800000, 0x8, 0x20, 0x100000);
    ByteInside(b, 21, t6, h6, E, t7, 0x8000, 0x8);
    ByteInside(b, 20, t6, h6, E, t7, 0x80, 0x800);
    ByteAcross(b, 19, O, E, t5, h5, t6, h6, t7, 0x1000000, 0x2, 0x80, 0x80000);
    ByteInside(b, 18, t5, h5, O, t6, 0x10000, 0x2);
    ByteInside(b, 17, t5, h5, O, t6, 0x100, 0x200);
    ByteInside(b, 16, t5, h5, O, t6, 0x1, 0x20000);
  }

  method StoreFirst(s: array<Byte>, h0: int, h1: int, h2: int)
    requires s.Length == 32
    requires 0 <= h0 < E && 0 <= h1 < O && 0 <= h2 < E
    modifies s
    ensures s[0] == ToByte(h0)
    ensures s[1] == ToByte(h0 / 0x100)
    ensures s[2] == ToByte(h0 / 0x10000)
    ensures s[3] == ToByte(h0 / 0x1000000 + h1 * 0x4)
    ensures s[4] == ToByte(h1 / 0x40)
    ensures s[5] == ToByte(h1 / 0x4000)
    ensures s[6] == ToByte(h1 / 0x400000 + h2 * 0x8)
    ensures s[7] == ToByte(h2 / 0x20)
    ensures s[8] == ToByte(h2 / 0x2000)
    ensures forall j :: 9 <= j < 32 ==> s[j] == old(s[j])
  {
    hide ToByte;
    hide Pow2;
    PowersOfTwo();
    var x3 := OrShifted(h0 / 0x1000000, h1, 2, 0x4);
    assert x3 == h0 / 0x1000000 + h1 * 0x4;
    var x6 := OrShifted(h1 / 0x400000, h2, 3, 0x8);
    assert x6 == h1 / 0x400000 + h2 * 0x8;
    s[0] := ToByte(h0);
    s[1] := ToByte(h0 / 0x100);
    s[2] := ToByte(h0 / 0x10000);
    s[3] := ToByte(Int32(x3));
    s[4] := ToByte(h1 / 0x40);
    s[5] := ToByte(h1 / 0x4000);
    s[6] := ToByte(Int32(x6));
    s[7] := ToByte(h2 / 0x20);
    s[8] := ToByte(h2 / 0x2000);
  }

  method StoreSecond(s: array<Byte>, h2: int, h3: int, h4: int)
    requires s.Length == 32
    requires 0 <= h2 < E && 0 <= h3 < O && 0 <= h4 < E
    modifies s
    ensures s[9] == ToByte(h2 / 0x200000 + h3 * 0x20)
    ensures s[10] == ToByte(h3 / 0x8)
    ensures s[11] == ToByte(h3 / 0x800)
    ensures s[12] == ToByte(h3 / 0x80000 + h4 * 0x40)
    ensures s[13] == ToByte(h4 / 0x4)
    ensures s[14] == ToByte(h4 / 0x400)
    ensures s[15] == ToByte(h4 / 0x40000)
    ensures forall j :: (0 <= j < 9 || 16 <= j < 32) ==> s[j] == old(s[j])
  {
    hide ToByte;
    hide Pow2;
    PowersOfTwo();
    var x9 := OrShifted(h2 / 0x200000, h3, 5, 0x20);
    assert x9 == h2 / 0x200000 + h3 * 0x20;
    var x12 := OrShifted(h3 / 0x80000, h4, 6, 0x40);
    assert x12 == h3 / 0x80000 + h4 * 0x40;
    s[9] := ToByte(Int32(x9));
    s[10] := ToByte(h3 / 0x8);
    s[11] := ToByte(h3 / 0x800);
    s[12] := ToByte(x12); // the shift may reach the sign bit, but none of the 32 bits is lost
    s[13] := ToByte(h4 / 0x4);
    s[14] := ToByte(h4 / 0x400);
    s[15] := ToByte(h4 / 0x40000);
  }

  method StoreLowHalf(s: array<Byte>, h0: int, h1: int, h2: int, h3: int, h4: int)
    requires s.Length == 32
    requires 0 <= h0 < E && 0 <= h1 < O && 0 <= h2 < E && 0 <= h3 < O && 0 <= h4 < E
    modifies s
    ensures s[0] == ToByte(h0)
    ensures s[1] == ToByte(h0 / 0x100)
    ensures s[2] == ToByte(h0 / 0x10000)
    ensures s[3] == ToByte(h0 / 0x1000000 + h1 * 0x4)
    ensures s[4] == ToByte(h1 / 0x40)
    ensures s[5] == ToByte(h1 / 0x4000)
    ensures s[6] == ToByte(h1 / 0x400000 + h2 * 0x8)
    ensures s[7] == ToByte(h2 / 0x20)
    ensures s[8] == ToByte(h2 / 0x2000)
    ensures s[9] == ToByte(h2 / 0x200000 + h3 * 0x20)
    ensures s[10] == ToByte(h3 / 0x8)
    ensures s[11] == ToByte(h3 / 0x800)
    ensures s[12] == ToByte(h3 / 0x80000 + h4 * 0x40)
    ensures s[13] == ToByte(h4 / 0x4)
    ensures s[14] == ToByte(h4 / 0x400)
    ensures s[15] == ToByte(h4 / 0x40000)
    ensures forall j :: 16 <= j < 32 ==> s[j] == old(s[j])
  {
    StoreFirst(s, h0, h1, h2);
    StoreSecond(s, h2, h3, h4);
  }

  method StoreThird(s: array<Byte>, h5: int, h6: int, h7: int)
    requires s.Length == 32
    requires 0 <= h5 < O && 0 <= h6 < E && 0 <= h7 < O
    modifies s
    ensures s[16] == ToByte(h5)
    ensures s[17] == ToByte(h5 / 0x100)
    ensures s[18] == ToByte(h5 / 0x10000)
    ensures s[19] == ToByte(h5 / 0x1000000 + h6 * 0x2)
    ensures s[20] == ToByte(h6 / 0x80)
    ensures s[21] == ToByte(h6 / 0x8000)
    ensures s[22] == ToByte(h6 / 0x800000 + h7 * 0x8)
    ensures s[23] == ToByte(h7 / 0x20)
    ensures s[24] == ToByte(h7 / 0x2000)
    ensures forall j :: (0 <= j < 16 || 25 <= j < 32) ==> s[j] == old(s[j])
  {
    hide ToByte;
    hide Pow2;
    PowersOfTwo();
    var x19 := OrShifted(h5 / 0x1000000, h6, 1, 0x2);
    assert x19 == h5 / 0x1000000 + h6 * 0x2;
    var x22 := OrShifted(h6 / 0x800000, h7, 3, 0x8);
    assert x22 == h6 / 0x800000 + h7 * 0x8;
    s[16] := ToByte(h5);
    s[17] := ToByte(h5 / 0x100);
    s[18] := ToByte(h5 / 0x10000);
    s[19] := ToByte(Int32(x19));
    s[20] := ToByte(h6 / 0x80);
    s[21] := ToByte(h6 / 0x8000);
    s[22] := ToByte(Int32(x22));
    s[23] := ToByte(h7 / 0x20);
    s[24] := ToByte(h7 / 0x2000);
  }

  method StoreFourth(s: array<Byte>, h7: int, h8: int, h9: int)
    requires s.Length == 32
    requires 0 <= h7 < O && 0 <= h8 < E && 0 <= h9 < O
    modifies s
    ensures s[25] == ToByte(h7 / 0x200000 + h8 * 0x10)
    ensures s[26] == ToByte(h8 / 0x10)
    ensures s[27] == ToByte(h8 / 0x1000)
    ensures s[28] == ToByte(h8 / 0x100000 + h9 * 0x40)
    ensures s[29] == ToByte(h9 / 0x4)
    ensures s[30] == ToByte(h9 / 0x400)
    ensures s[31] == ToByte(h9 / 0x40000)
    ensures forall j :: 0 <= j < 25 ==> s[j] == old(s[j])
  {
    hide ToByte;
    hide Pow2;
    PowersOfTwo();
    var x25 := OrShifted(h7 / 0x200000, h8, 4, 0x10);
    assert x25 == h7 / 0x200000 + h8 * 0x10;
    var x28 := OrShifted(h8 / 0x100000, h9, 6, 0x40);
    assert x28 == h8 / 0x100000 + h9 * 0x40;
    s[25] := ToByte(Int32(x25));
    s[26] := ToByte(h8 / 0x10);
    s[27] := ToByte(h8 / 0x1000);
    s[28] := ToByte(Int32(x28));
    s[29] := ToByte(h9 / 0x4);
    s[30] := ToByte(h9 / 0x400);
    s[31] := ToByte(h9 / 0x40000);
  }

  method StoreHighHalf(s: array<Byte>, h5: int, h6: int, h7: int, h8: int, h9: int)
    requires s.Length == 32
    requires 0 <= h5 < O && 0 <= h6 < E && 0 <= h7 < O && 0 <= h8 < E && 0 <= h9 < O
    modifies s
    ensures s[16] == ToByte(h5)
    ensures s[17] == ToByte(h5 / 0x100)
    ensures s[18] == ToByte(h5 / 0x10000)
    ensures s[19] == ToByte(h5 / 0x1000000 + h6 * 0x2)
    ensures s[20] == ToByte(h6 / 0x80)
    ensures s[21] == ToByte(h6 / 0x8000)
    ensures s[22] == ToByte(h6 / 0x800000 + h7 * 0x8)
    ensures s[23] == ToByte(h7 / 0x20)
    ensures s[24] == ToByte(h7 / 0x2000)
    ensures s[25] == ToByte(h7 / 0x200000 + h8 * 0x10)
    ensures s[26] == ToByte(h8 / 0x10)
    ensures s[27] == ToByte(h8 / 0x1000)
    ensures s[28] == ToByte(h8 / 0x100000 + h9 * 0x40)
    ensures s[29] == ToByte(h9 / 0x4)
    ensures s[30] == ToByte(h9 / 0x400)
    ensures s[31] == ToByte(h9 / 0x40000)
    ensures forall j :: 0 <= j < 16 ==> s[j] == old(s[j])
  {
    StoreThird(s, h5, h6, h7);
    StoreFourth(s, h7, h8, h9);
  }

  /**
    The quotient that FeToBytes estimates is exact: from H = low + 2^230 h9 and the carry e = 19 h9 / 2^25 rounded,
    (H + e) / 2^255 == H / P.
  */
  lemma QuotientIsExact(H: int, low: int, h9: int, e: int, q: int, rest: int)
    requires H == low + 0x4000000000000000000000000000000000000000000000000000000000 * h9
    requires In(low, 0x50000000000000000000000000000000000000000000000000000000000) && In(h9, 0x300_0000)
    requires 0x200_0000 * e <= 19 * h9 + 0x100_0000 < 0x200_0000 * (e + 1)
    requires H + e == rest + q * TWO_255
    requires 0 <= rest < TWO_255
    ensures q == H / P
  {
    var k, r := H / P, H % P;
    assert H == k * P + r;
    assert 0 <= r + e - 19 * k < TWO_255;
    ModUnique(H + e, TWO_255, k, r + e - 19 * k);
    ModUnique(H + e, TWO_255, q, rest);
  }

  lemma LowLimbs(h0: int, h1: int, h2: int, h3: int, h4: int, h5: int, h6: int, h7: int, h8: int)
    requires In(20 * h0, 44 * O) && In(40 * h1, 44 * O) && In(20 * h2, 44 * O) && In(40 * h3, 44 * O) && In(20 * h4,
      44 * O) && In(40 * h5, 44 * O) && In(20 * h6, 44 * O) && In(40 * h7, 44 * O) && In(20 * h8, 44 * O)
    ensures In(V10(h0, h1, h2, h3, h4, h5, h6, h7, h8, 0),
      0x50000000000000000000000000000000000000000000000000000000000)
  {
  }

  /** One step of the estimate: the remainder is kept for the proof. */
  method Step(x: int, q: int, m: int) returns (q': int, ghost r: int)
    requires (m == E || m == O) && In(x, 0x1000_0000) && In(q, 0x1000_0000)
    ensures x + q == r + m * q' && 0 <= r < m && In(q', 0x10)
  {
    q' := Int32(x + q) / m;
    r := (x + q) % m;
  }

  method Quotient(h0: int, h1: int, h2: int, h3: int, h4: int, h5: int, h6: int, h7: int, h8: int, h9: int)
    returns (q: int)
    requires In(20 * h0, 44 * O) && In(40 * h1, 44 * O) && In(20 * h2, 44 * O) && In(40 * h3, 44 * O) && In(20 * h4,
      44 * O) && In(40 * h5, 44 * O) && In(20 * h6, 44 * O) && In(40 * h7, 44 * O) && In(20 * h8, 44 * O) && In(40 *
      h9, 44 * O)
    ensures q == V10(h0, h1, h2, h3, h4, h5, h6, h7, h8, h9) / P
  {
    q := Int32(Int32(19 * h9) + 0x100_0000) / O;
    ghost var e := q;
    ghost var r0, r1, r2, r3, r4, r5, r6, r7, r8, r9;
    q, r0 := Step(h0, q, E);
    q, r1 := Step(h1, q, O);
    q, r2 := Step(h2, q, E);
    assert h0 + 0x4000000 * h1 + 0x8000000000000 * h2 + e == r0 + 0x4000000 * r1 + 0x8000000000000 * r2 +
      0x20000000000000000000 * q;
    q, r3 := Step(h3, q, O);
    q, r4 := Step(h4, q, E);
    q, r5 := Step(h5, q, O);
    assert h0 + 0x4000000 * h1 + 0x8000000000000 * h2 + 0x20000000000000000000 * h3 + 0x40000000000000000000000000 *
      h4 + 0x100000000000000000000000000000000 * h5 + e == r0 + 0x4000000 * r1 + 0x8000000000000 * r2 +
      0x20000000000000000000 * r3 + 0x40000000000000000000000000 * r4 + 0x100000000000000000000000000000000 * r5 +
      0x200000000000000000000000000000000000000 * q;
    q, r6 := Step(h6, q, E);
    q, r7 := Step(h7, q, O);
    assert h0 + 0x4000000 * h1 + 0x8000000000000 * h2 + 0x20000000000000000000 * h3 + 0x40000000000000000000000000 *
      h4 + 0x100000000000000000000000000000000 * h5 + 0x200000000000000000000000000000000000000 * h6 +
      0x800000000000000000000000000000000000000000000 * h7 + e == r0 + 0x4000000 * r1 + 0x8000000000000 * r2 +
      0x20000000000000000000 * r3 + 0x40000000000000000000000000 * r4 + 0x100000000000000000000000000000000 * r5 +
      0x200000000000000000000000000000000000000 * r6 + 0x800000000000000000000000000000000000000000000 * r7 +
      0x1000000000000000000000000000000000000000000000000000 * q;
    q, r8 := Step(h8, q, E);
    q, r9 := Step(h9, q, O);
    LowLimbs(h0, h1, h2, h3, h4, h5, h6, h7, h8);
    QuotientIsExact(V10(h0, h1, h2, h3, h4, h5, h6, h7, h8, h9), V10(h0, h1, h2, h3, h4, h5, h6, h7, h8, 0), h9, e,
      q, V10(r0, r1, r2, r3, r4, r5, r6, r7, r8, r9));
  }

  /** Moves the excess of a limb of base m, rounded down, into the next limb. */
  method CarryDown(x: int, y: int, m: int) returns (x': int, y': int)
    requires (m == E || m == O) && In(x, 0x2000_0000) && In(y, 0x1000_0000)
    ensures x' + m * y' == x + m * y && 0 <= x' < m && In(y' - y, 32)
  {
    var carry := Int32(x / m);
    y' := Int32(y + carry);
    x' := Int32(x - Int32(carry * m));
  }

  method CarryDownAll(g0: int, g1: int, g2: int, g3: int, g4: int, g5: int, g6: int, g7: int, g8: int, g9: int)
    returns (h0: int, h1: int, h2: int, h3: int, h4: int, h5: int, h6: int, h7: int, h8: int, h9: int, carry: int)
    requires In(g0, 0x500_0000) && In(g1, 0x500_0000) && In(g2, 0x500_0000) && In(g3, 0x500_0000) && In(g4,
      0x500_0000) && In(g5, 0x500_0000) && In(g6, 0x500_0000) && In(g7, 0x500_0000) && In(g8, 0x500_0000) && In(g9,
      0x500_0000)
    ensures V10(h0, h1, h2, h3, h4, h5, h6, h7, h8, h9) + carry * TWO_255 == V10(g0, g1, g2, g3, g4, g5, g6, g7, g8, g9)
    ensures 0 <= h0 < E && 0 <= h1 < O && 0 <= h2 < E && 0 <= h3 < O && 0 <= h4 < E && 0 <= h5 < O && 0 <= h6 < E &&
      0 <= h7 < O && 0 <= h8 < E && 0 <= h9 < O
  {
    h0, h1, h2, h3, h4, h5, h6, h7, h8, h9 := g0, g1, g2, g3, g4, g5, g6, g7, g8, g9;
    h0, h1 := CarryDown(h0, h1, E);
    h1, h2 := CarryDown(h1, h2, O);
    h2, h3 := CarryDown(h2, h3, E);
    h3, h4 := CarryDown(h3, h4, O);
    assert h0 + 0x4000000 * h1 + 0x8000000000000 * h2 + 0x20000000000000000000 * h3 + 0x40000000000000000000000000 *
      h4 == g0 + 0x4000000 * g1 + 0x8000000000000 * g2 + 0x20000000000000000000 * g3 + 0x40000000000000000000000000
      * g4;
    h4, h5 := CarryDown(h4, h5, E);
    h5, h6 := CarryDown(h5, h6, O);
    h6, h7 := CarryDown(h6, h7, E);
    assert h0 + 0x4000000 * h1 + 0x8000000000000 * h2 + 0x20000000000000000000 * h3 + 0x40000000000000000000000000 *
      h4 + 0x100000000000000000000000000000000 * h5 + 0x200000000000000000000000000000000000000 * h6 +
      0x800000000000000000000000000000000000000000000 * h7 == g0 + 0x4000000 * g1 + 0x8000000000000 * g2 +
      0x20000000000000000000 * g3 + 0x40000000000000000000000000 * g4 + 0x100000000000000000000000000000000 * g5 +
      0x200000000000000000000000000000000000000 * g6 + 0x800000000000000000000000000000000000000000000 * g7;
    h7, h8 := CarryDown(h7, h8, O);
    h8, h9 := CarryDown(h8, h9, E);
    carry := h9 / O;
    h9 := Int32(h9 - Int32(carry * O));
  }

  /** What the last carry takes away is what the added 19 q is short of P q. */
  lemma LastCarryIsQuotient(H: int, V: int, q: int, carry: int)
    requires q == H / P && V + carry * TWO_255 == H + 19 * q && 0 <= V < TWO_255
    ensures V == H % P
  {
    var r := H % P;
    assert H == q * P + r;
    ModUnique(H + 19 * q, TWO_255, q, r);
    ModUnique(H + 19 * q, TWO_255, carry, V);
  }

  /** Writes limbs that are within their bases. */
  method Write(s: array<Byte>, h0: int, h1: int, h2: int, h3: int, h4: int, h5: int, h6: int, h7: int, h8: int, h9:
      int)
    requires s.Length == 32
    requires 0 <= h0 < E && 0 <= h1 < O && 0 <= h2 < E && 0 <= h3 < O && 0 <= h4 < E && 0 <= h5 < O && 0 <= h6 < E
      && 0 <= h7 < O && 0 <= h8 < E && 0 <= h9 < O
    modifies s
    ensures LittleEndian(s[..]) == V10(h0, h1, h2, h3, h4, h5, h6, h7, h8, h9)
  {
    StoreLowHalf(s, h0, h1, h2, h3, h4);
    StoreHighHalf(s, h5, h6, h7, h8, h9);
    HighHalf(s[..], h5, h6, h7, h8, h9);
    LowHalf(s[..], h0, h1, h2, h3, h4);
  }

  /** The limbs, each within its base, of the representative in [0, P). */
  method Canonical(g0: int, g1: int, g2: int, g3: int, g4: int, g5: int, g6: int, g7: int, g8: int, g9: int)
    returns (h0: int, h1: int, h2: int, h3: int, h4: int, h5: int, h6: int, h7: int, h8: int, h9: int)
    requires In(20 * g0, 44 * O) && In(40 * g1, 44 * O) && In(20 * g2, 44 * O) && In(40 * g3, 44 * O) && In(20 * g4,
      44 * O) && In(40 * g5, 44 * O) && In(20 * g6, 44 * O) && In(40 * g7, 44 * O) && In(20 * g8, 44 * O) && In(40 *
      g9, 44 * O)
    ensures V10(h0, h1, h2, h3, h4, h5, h6, h7, h8, h9) == V10(g0, g1, g2, g3, g4, g5, g6, g7, g8, g9) % P
    ensures 0 <= h0 < E && 0 <= h1 < O && 0 <= h2 < E && 0 <= h3 < O && 0 <= h4 < E && 0 <= h5 < O && 0 <= h6 < E &&
      0 <= h7 < O && 0 <= h8 < E && 0 <= h9 < O
  {
    var q := Quotient(g0, g1, g2, g3, g4, g5, g6, g7, g8, g9);
    assert In(q, 2);
    var carry;
    h0, h1, h2, h3, h4, h5, h6, h7, h8, h9, carry := CarryDownAll(Int32(g0 + 19 * q), g1, g2, g3, g4, g5, g6, g7,
      g8, g9);
    LastCarryIsQuotient(V10(g0, g1, g2, g3, g4, g5, g6, g7, g8, g9), V10(h0, h1, h2, h3, h4, h5, h6, h7, h8, h9), q,
      carry);
  }

  /** Writes the representative of h in [0, P) and leaves h holding it. */
  method FeToBytes(s: array<Byte>, h: array<int>)
    requires s.Length == 32 && h.Length == 10 && Range(h[..], 44)
    modifies s, h
    ensures LittleEndian(s[..]) == old(Val(h[..])) % P
    ensures Val(h[..]) == old(Val(h[..])) % P && Range(h[..], 40)
  {
    var h0, h1, h2, h3, h4, h5, h6, h7, h8, h9 := Canonical(h[0], h[1], h[2], h[3], h[4], h[5], h[6], h[7], h[8],
      h[9]);
    h[0] := h0;
    h[1] := h1;
    h[2] := h2;
    h[3] := h3;
    h[4] := h4;
    h[5] := h5;
    h[6] := h6;
    h[7] := h7;
    h[8] := h8;
    h[9] := h9;
    Write(s, h0, h1, h2, h3, h4, h5, h6, h7, h8, h9);
  }

  /** The sign that the encoding of a point records: the low bit of the canonical representative. */
  method FeIsNegative(f: array<int>) returns (sign: int)
    requires f.Length == 10 && Range(f[..], 44)
    modifies f
    ensures sign == (old(Val(f[..])) % P) % 2
    ensures Val(f[..]) == old(Val(f[..])) % P && Range(f[..], 40)
  {
    var s := new Byte[32];
    FeToBytes(s, f);
    LowBit(s[..]);
    sign := At(s[..], 0) % 2;
  }

  lemma LowBit(b: seq<Byte>)
    requires |b| > 0
    ensures LittleEndian(b) % 2 == At(b, 0) % 2
  {
    var rest := LittleEndianFrom(b, 1);
    assert LittleEndian(b) == At(b, 0) + 256 * rest;
  }

  // ---------------------------------------------------------------------------------------
  // The round trip
  // ---------------------------------------------------------------------------------------

  /** Byte strings of one length with the same value are the same. */
  lemma {:induction false} LittleEndianInjective(a: seq<Byte>, b: seq<Byte>, i: nat)
    requires |a| == |b| && i <= |a| && LittleEndianFrom(a, i) == LittleEndianFrom(b, i)
    ensures a[i..] == b[i..]
    decreases |a| - i
  {
    if i < |a| {
      ModUnique(LittleEndianFrom(a, i), 256, LittleEndianFrom(a, i + 1), At(a, i));
      ModUnique(LittleEndianFrom(b, i), 256, LittleEndianFrom(b, i + 1), At(b, i));
      LittleEndianInjective(a, b, i + 1);
      assert a[i..] == [a[i]] + a[i + 1..];
      assert b[i..] == [b[i]] + b[i + 1..];
    }
  }

  lemma SameLoads(b: seq<Byte>, x: Byte, i: nat)
    requires |b| == 32 && i + 3 <= 31
    ensures Load3(b[31 := x], i) == Load3(b, i)
    ensures i + 4 <= 31 ==> Load4(b[31 := x], i) == Load4(b, i)
  {
  }

  lemma TopWord(b: seq<Byte>)
    requires |b| == 32
    ensures Load3(b[31 := b[31] % 128], 29) == Mask23(Load3(b, 29))
  {
  }

  lemma ClearedWords(b: seq<Byte>)
    requires |b| == 32
    ensures LittleEndian(b[31 := b[31] % 128]) == Words(Load4(b, 0), Load3(b, 4), Load3(b, 7), Load3(b, 10),
      Load3(b, 13), Load4(b, 16), Load3(b, 20), Load3(b, 23), Load3(b, 26), Mask23(Load3(b, 29)))
  {
    var x: Byte := b[31] % 128;
    ReadWords(b[31 := x]);
    SameLoads(b, x, 0);
    SameLoads(b, x, 4);
    SameLoads(b, x, 7);
    SameLoads(b, x, 10);
    SameLoads(b, x, 13);
    SameLoads(b, x, 16);
    SameLoads(b, x, 20);
    SameLoads(b, x, 23);
    SameLoads(b, x, 26);
    TopWord(b);
  }

  /** Clearing the top bit of 32 bytes leaves the low 255 bits. */
  lemma TopBitCleared(b: seq<Byte>)
    requires |b| == 32
    ensures LittleEndian(b[31 := b[31] % 128]) == LittleEndian(b) % TWO_255
  {
    ReadWords(b);
    ClearedWords(b);
    JoinWords(Load4(b, 0), Load3(b, 4), Load3(b, 7), Load3(b, 10), Load3(b, 13), Load4(b, 16), Load3(b, 20),
      Load3(b, 23), Load3(b, 26), Load3(b, 29));
  }

  /**
    FeToBytes undoes FeFromBytes: for dst as FeFromBytes leaves it and s as FeToBytes then writes it, s is src
    with its top bit cleared exactly when those 255 bits are a number below P.
  */
  lemma RoundTrip(src: seq<Byte>, h: int, s: seq<Byte>)
    requires |src| == |s| == 32
    requires Cong(h, LittleEndian(src) % TWO_255)
    requires LittleEndian(s) == h % P
    ensures s == src[31 := src[31] % 128] <==> LittleEndian(src) % TWO_255 < P
  {
    var v := LittleEndian(src) % TWO_255;
    TopBitCleared(src);
    if v < P {
      ModUnique(v, P, 0, v);
      LittleEndianInjective(s, src[31 := src[31] % 128], 0);
    }
  }

  /** Loads 32 bytes and stores them again. */
  method LoadStore(dst: array<Byte>, src: array<Byte>)
    requires dst.Length == src.Length == 32
    modifies dst
    ensures LittleEndian(dst[..]) == old(LittleEndian(src[..])) % TWO_255 % P
    ensures dst[..] == old(src[..])[31 := old(src[31]) % 128] <==> old(LittleEndian(src[..])) % TWO_255 < P
  {
    ghost var b := src[..];
    var h := new int[10];
    FeFromBytes(h, src);
    ghost var v := Val(h[..]);
    Wider(h[..], 22, 44);
    FeToBytes(dst, h);
    RoundTrip(b, v, dst[..]);
  }
}
