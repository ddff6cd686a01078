/** The advancing parser (string.go) and the ASN.1 readers on it (asn1.go). */
module DerReader {
  import opened BigEndians
  import opened Bits
  import opened Results
  import opened Der
  import DerBuilder

  /** A signed or unsigned word kept to its width, as Go's conversions and shifts do. */
  function Wrap64(x: int): (r: nat) {
    x % WORD
  }

  function Signed64(x: int): (r: int)
    ensures -0x8000_0000_0000_0000 <= r < 0x8000_0000_0000_0000
  {
    if Wrap64(x) < 0x8000_0000_0000_0000 then Wrap64(x) else Wrap64(x) - WORD
  }

  /** The length that k bytes behind the first length byte give, if it could not be given in fewer bytes. */
  function LongLength(s: seq<Byte>, k: nat): Result<nat> {
    if k == 0 || k > 4 || |s| < 2 + k then Err
    else
      var n := BigEndian(s[2..2 + k]);
      if n < 0x80 || s[2] == 0 || n > 0xffff_ffff - 2 - k then Err else Ok(n)
  }

  /** What the specification reads, by the form of the length. */
  lemma ElementCases(s: seq<Byte>)
    ensures
      if |s| < 2 || !LowTag(s[0]) then ParseElement(s).Err?
      else if s[1] < 0x80 then ParseElement(s) == Cut(s, 2, s[1])
      else
        match LongLength(s, s[1] % 0x80)
        case Err => ParseElement(s).Err?
        case Ok(n) => ParseElement(s) == Cut(s, 2 + s[1] % 0x80, n)
  {
    hide BigEndian;
  }

  class String {
    var s: seq<Byte>

    constructor (s: seq<Byte>)
      ensures this.s == s
    {
      this.s := s;
    }

    /** Takes n bytes off the front, or fails and stays. */
    method Read(n: nat) returns (v: Result<seq<Byte>>)
      modifies this
      ensures if n <= |old(s)| then v == Ok(old(s)[..n]) && s == old(s)[n..] else v.Err? && s == old(s)
    {
      if |s| < n {
        return Err;
      }
      v := Ok(s[..n]);
      s := s[n..];
    }

    method Skip(n: nat) returns (ok: bool)
      modifies this
      ensures ok == (n <= |old(s)|) && s == if ok then old(s)[n..] else old(s)
    {
      var v := Read(n);
      return v.Ok?;
    }

    /** A big-endian number of at most four bytes. */
    method ReadUnsigned(length: nat) returns (n: Result<nat>)
      requires length <= 4
      modifies this
      ensures if length <= |old(s)| then n == Ok(BigEndian(old(s)[..length])) && s == old(s)[length..]
              else n.Err? && s == old(s)
    {
      hide BigEndian;
      hide Pow2;
      var v := Read(length);
      if v.Err? {
        return Err;
      }
      var result: nat := 0;
      var i := 0;
      NoBytes();
      while i < length
        invariant 0 <= i <= length && result == BigEndian(v.value[..i]) && s == old(s)[length..]
      {
        WithNextByte(v.value, i);
        Below(v.value[..i + 1], 4);
        Pow2Of32();
        result := (result * 0x100) % 0x1_0000_0000 + v.value[i]; // shifted left as a uint32
        i := i + 1;
      }
      assert v.value[..length] == v.value;
      return Ok(result);
    }

    /** What stands behind a length of lenLen bytes, whatever is in front of it. */
    method ReadLengthPrefixed(lenLen: nat) returns (child: Result<seq<Byte>>)
      requires lenLen <= 4
      modifies this
      ensures match ParsePrefixed(old(s), lenLen)
              case Err => child.Err? && s == if |old(s)| < lenLen then old(s) else old(s)[lenLen..]
              case Ok(p) => child == Ok(p.0) && s == p.1
    {
      hide BigEndian;
      ghost var before := s;
      var length := ReadUnsigned(lenLen);
      if length.Err? {
        return Err;
      }
      child := Read(length.value);
      if child.Ok? {
        var n := lenLen + length.value;
        assert before[lenLen..][..length.value] == before[lenLen..n] && before[lenLen..][length.value..] == before[n..];
      }
    }

    /** The long form of a length: the minimal big-endian number behind the first length byte. */
    method ReadLength(lenLen: nat) returns (n: Result<nat>)
      requires |s| >= 2
      ensures n == LongLength(s, lenLen)
    {
      if lenLen == 0 || lenLen > 4 || |s| < 2 + lenLen {
        return Err;
      }
      var lenBytes := new String(s[2..2 + lenLen]);
      var len32 := lenBytes.ReadUnsigned(lenLen);
      assert s[2..2 + lenLen][..lenLen] == s[2..2 + lenLen];
      if len32.value < 128 {
        return Err;
      }
      LeadingByte(s[2..2 + lenLen]);
      if len32.value / Pow2(8 * (lenLen - 1)) == 0 {
        return Err;
      }
      if 2 + lenLen + len32.value > 0xffff_ffff {
        return Err;
      }
      return len32;
    }

    /** The next element, with its header or without; nothing is consumed unless there is one. */
    method ReadASN1(skipHeader: bool) returns (out: Result<(Byte, seq<Byte>)>)
      modifies this
      ensures match ParseElement(old(s))
              case Err => out.Err? && s == old(s)
              case Ok(p) =>
                var n := p.header + |p.content|;
                out == Ok((p.tag, if skipHeader then p.content else old(s)[..n])) && s == old(s)[n..]
    {
      hide ParseElement;
      hide LongLength;
      ElementCases(s);
      if |s| < 2 {
        return Err;
      }
      var tag, lenByte := s[0], s[1];
      if tag % 32 == 31 {
        return Err;
      }
      var length: nat, headerLen: nat;
      if lenByte < 0x80 {
        length := lenByte + 2;
        headerLen := 2;
      } else {
        var lenLen: nat := lenByte % 0x80;
        var n := ReadLength(lenLen);
        if n.Err? {
          return Err;
        }
        headerLen := 2 + lenLen;
        length := headerLen + n.value;
      }
      var whole := Read(length);
      if whole.Err? {
        return Err;
      }
      assert whole.value[headerLen..] == old(s)[headerLen..length];
      return Ok((tag, if skipHeader then whole.value[headerLen..] else whole.value));
    }
  }

  lemma WithNextByte(b: seq<Byte>, i: nat)
    requires i < |b|
    ensures BigEndian(b[..i + 1]) == 256 * BigEndian(b[..i]) + b[i]
  {
    assert b[..i + 1][..i] == b[..i];
  }

  /** The top byte of a number in big-endian form. */
  lemma {:induction false} LeadingByte(b: seq<Byte>)
    requires b != []
    ensures BigEndian(b) / Pow2(8 * (|b| - 1)) == At(b, 0)
  {
    var rest := b[..|b| - 1];
    if rest == [] {
      NoBytes();
      DivOne(BigEndian(b));
    } else {
      LeadingByte(rest);
      Pow2Add(8, 8 * (|b| - 2));
      PowersOfTwo();
      ModUnique(BigEndian(b), 256, BigEndian(rest), b[|b| - 1]);
      DivDiv(BigEndian(b), 256, Pow2(8 * (|b| - 2)));
    }
  }

  // ---------------------------------------------------------------------------------------
  // INTEGER
  // ---------------------------------------------------------------------------------------

  method CheckASN1Integer(b: seq<Byte>) returns (ok: bool)
    ensures ok == Minimal(b)
  {
    if |b| == 0 {
      return false;
    }
    if |b| == 1 {
      return true;
    }
    if (b[0] == 0 && b[1] < 0x80) || (b[0] == 0xff && b[1] >= 0x80) {
      return false;
    }
    return true;
  }

  /** Wrapping to 64 bits forgets multiples of 2^64. */
  lemma WrapForgets(x: int, k: int)
    ensures Signed64(x + k * WORD) == Signed64(x)
  {
    assert x == (x / WORD) * WORD + x % WORD;
    ModUnique(x + k * WORD, WORD, x / WORD + k, x % WORD);
  }

  /** A step of shifting left by bits can wrap early or late. */
  lemma WrapEarly(x: int, m: int, c: int)
    ensures Signed64(Signed64(x) * m + c) == Signed64(x * m + c)
  {
    var k := (x - Signed64(x)) / WORD;
    assert x == Signed64(x) + k * WORD;
    assert x * m + c == (Signed64(x) * m + c) + (k * m) * WORD by {
      assert (k * WORD) * m == (k * m) * WORD;
    }
    WrapForgets(Signed64(x) * m + c, k * m);
  }

  /** The sign bit of two's complement bytes. */
  lemma TopBit(b: seq<Byte>)
    requires b != []
    ensures BigEndian(b) < Pow2(8 * |b|)
    ensures At(b, 0) < 0x80 <==> 2 * BigEndian(b) < Pow2(8 * |b|)
  {
    LeadingByte(b);
    var m := Pow2(8 * (|b| - 1));
    Pow2Add(8, 8 * (|b| - 1));
    PowersOfTwo();
    hide BigEndian;
    hide Pow2;
    TopDigit(BigEndian(b), m, At(b, 0));
  }

  lemma TopDigit(n: nat, m: int, d: nat)
    requires m >= 1 && n / m == d <= 0xff
    ensures n < 256 * m && (d < 0x80 <==> 2 * n < 256 * m)
  {
    assert n == d * m + n % m;
    MulMono(d, 0xff, m);
    if d < 0x80 {
      MulMono(d, 0x7f, m);
    } else {
      MulMono(0x80, d, m);
    }
  }

  lemma Below(b: seq<Byte>, k: nat)
    requires |b| <= k
    ensures BigEndian(b) < Pow2(8 * k)
  {
    NoBytes();
    if b != [] {
      TopBit(b);
    }
    hide BigEndian;
    hide Pow2;
    Pow2Monotone(8 * |b|, 8 * k);
  }

  lemma {:induction false} Pow2Monotone(i: nat, j: nat)
    requires i <= j
    ensures Pow2(i) <= Pow2(j)
  {
    if i < j {
      Pow2Monotone(i, j - 1);
    }
  }

  lemma Pow2Of32()
    ensures Pow2(32) == 0x1_0000_0000
  {
    Pow2Add(16, 16);
    PowersOfTwo();
  }

  /** Shifting n bytes up to the top of a word and back again extends their sign. */
  lemma SignExtends(start: int, n: seq<Byte>, m: int)
    requires 1 <= |n| <= 8 && m == Pow2(64 - 8 * |n|)
    ensures Signed64((start * Pow2(8 * |n|) + BigEndian(n)) * m) / m == SignedValue(n)
  {
    var w, v := Pow2(8 * |n|), BigEndian(n);
    TopBit(n);
    Pow2Add(8 * |n|, 64 - 8 * |n|);
    EightBytes();
    assert w * m == WORD;
    assert m >= 1;
    assert At(n, 0) == n[0];
    assert SignedValue(n) == if 2 * v < w then v else v - w;
    hide BigEndian;
    hide Pow2;
    hide SignedValue;
    Assoc(start, w, m);
    Distribute(start * w, v, m);
    WrapForgets(v * m, start);
    var r := if 2 * v < w then v else v - w;
    HalfWords(v, w, m);
    SignedIs(v * m, r * m, if 2 * v < w then 0 else 1);
    hide Signed64;
    ModUnique(r * m, m, r, 0);
    assert (start * w + v) * m == v * m + start * WORD;
    assert Signed64((start * w + v) * m) == r * m;
  }

  lemma Distribute(x: int, y: int, m: int)
    ensures (x + y) * m == x * m + y * m
  {
  }

  lemma HalfWords(v: nat, w: int, m: int)
    requires 0 <= v < w && m >= 1 && w * m == WORD
    ensures 2 * v < w ==> 0 <= 2 * (v * m) < WORD
    ensures 2 * v >= w ==> -WORD <= 2 * ((v - w) * m) < 0 && (v - w) * m == v * m - WORD
  {
    MulMono(0, v, m);
    if 2 * v < w {
      MulMono(2 * v + 1, w, m);
      Assoc(2, v, m);
    } else {
      MulMono(w, 2 * v, m);
      MulMono(v + 1, w, m);
      Assoc(2, v, m);
    }
  }

  lemma SignedIs(x: int, y: int, k: int)
    requires x == y + k * WORD && -WORD <= 2 * y < WORD
    ensures Signed64(x) == y
  {
    WrapForgets(y, k);
    if y >= 0 {
      ModUnique(y, WORD, 0, y);
    } else {
      ModUnique(y, WORD, -1, y + WORD);
    }
  }

  /** Two's complement of up to eight bytes; whatever was in the variable before is shifted out. */
  method ASN1Signed(start: int, n: seq<Byte>) returns (out: Result<int>)
    requires n != []
    ensures out == if |n| > 8 then Err else Ok(SignedValue(n))
  {
    hide Signed64;
    hide BigEndian;
    hide SignedValue;
    hide Pow2;
    var length := |n|;
    if length > 8 {
      return Err;
    }
    var v := Signed64(start);
    var i := 0;
    NothingRead(start, n);
    while i < length
      invariant 0 <= i <= length
      invariant v == Signed64(start * Pow2(8 * i) + BigEndian(n[..i]))
    {
      ghost var x := start * Pow2(8 * i) + BigEndian(n[..i]);
      v := Signed64(v * 256 + n[i]);
      WrapEarly(x, 256, n[i]);
      WithNextByte(n, i);
      Pow2Add(8, 8 * i);
      PowersOfTwo();
      Scaled(start, Pow2(8 * i));
      i := i + 1;
    }
    assert n[..length] == n;
    var m := Pow2(64 - 8 * length);
    ghost var x := start * Pow2(8 * length) + BigEndian(n);
    SignExtends(start, n, m);
    WrapEarly(x, m, 0);
    v := Signed64(v * m);
    v := v / m; // an arithmetic shift right
    return Ok(v);
  }

  lemma NothingRead(start: int, n: seq<Byte>)
    ensures start * Pow2(0) + BigEndian(n[..0]) == start
  {
  }

  lemma Scaled(x: int, y: int)
    ensures x * (256 * y) == (x * y) * 256
  {
  }

  lemma WrapThen(x: nat, b: nat)
    ensures Wrap64(Wrap64(x) * 256 + b) == Wrap64(256 * x + b)
  {
    var y := Wrap64(x) * 256 + b;
    assert 256 * x + b == (x / WORD * 256 + y / WORD) * WORD + y % WORD;
    ModUnique(256 * x + b, WORD, x / WORD * 256 + y / WORD, y % WORD);
  }

  /** The two size tests leave exactly the unsigned words. */
  lemma WordFits(n: seq<Byte>)
    requires Minimal(n)
    ensures 0 <= SignedValue(n) < WORD <==> (|n| <= 8 || (|n| == 9 && At(n, 0) == 0)) && At(n, 0) < 0x80
    ensures At(n, 0) < 0x80 ==> SignedValue(n) == BigEndian(n)
  {
    TopBit(n);
    assert At(n, 0) == n[0];
    assert SignedValue(n) == BigEndian(n) - if At(n, 0) < 0x80 then 0 else Pow2(8 * |n|);
    hide SignedBytes;
    hide Pow2;
    MinimalIsSignedBytes(n);
    SignedLength(SignedValue(n), 9);
    Wide();
    if |n| <= 8 {
      Below(n, 8);
    } else if |n| == 9 {
      LeadingByte(n);
      NoOverflow(BigEndian(n));
    }
  }

  lemma NoOverflow(n: nat)
    ensures n / WORD == 0 <==> n < WORD
  {
  }

  /** Unlike the signed one, an unsigned variable keeps what it held before unless that is shifted out. */
  lemma UnsignedExactlyWhen(start: nat, n: seq<Byte>)
    requires n != [] && 0 <= SignedValue(n) < WORD
    ensures Wrap64(start * Pow2(8 * |n|) + SignedValue(n)) == SignedValue(n) <==> start * Pow2(8 * |n|) % WORD == 0
  {
    hide SignedValue;
    hide Pow2;
    SumWraps(start * Pow2(8 * |n|), SignedValue(n));
  }

  lemma SumWraps(x: nat, v: nat)
    requires v < WORD
    ensures Wrap64(x + v) == v <==> x % WORD == 0
  {
    var r := x % WORD;
    if r + v < WORD {
      ModUnique(x + v, WORD, x / WORD, r + v);
    } else {
      ModUnique(x + v, WORD, x / WORD + 1, r + v - WORD);
    }
  }

  /** An unsigned word in up to eight bytes, or nine of which the first is zero, behind what was in the variable. */
  method ASN1Unsigned(start: nat, n: seq<Byte>) returns (out: Result<nat>)
    requires Minimal(n) && start < WORD
    ensures out ==
      if 0 <= SignedValue(n) < WORD then Ok(Wrap64(start * Pow2(8 * |n|) + SignedValue(n))) else Err
    ensures start == 0 && out.Ok? ==> out.value == SignedValue(n)
  {
    hide BigEndian;
    hide Pow2;
    var length := |n|;
    WordFits(n);
    if length > 9 || (length == 9 && n[0] != 0) {
      return Err;
    }
    if n[0] >= 0x80 {
      return Err;
    }
    var v := start;
    var i := 0;
    NothingRead(start, n);
    ModUnique(start, WORD, 0, start);
    while i < length
      invariant 0 <= i <= length
      invariant v == Wrap64(start * Pow2(8 * i) + BigEndian(n[..i]))
    {
      ghost var x := start * Pow2(8 * i) + BigEndian(n[..i]);
      v := Wrap64(v * 256 + n[i]);
      WrapThen(x, n[i]);
      WithNextByte(n, i);
      Pow2Add(8, 8 * i);
      PowersOfTwo();
      Scaled(start, Pow2(8 * i));
      i := i + 1;
    }
    assert n[..length] == n;
    if start == 0 {
      ModUnique(SignedValue(n), WORD, 0, SignedValue(n));
    }
    return Ok(v);
  }

  /** An INTEGER or another element with its content; nothing else is looked at before it is consumed. */
  function ParseInteger(s: seq<Byte>, tag: Byte, fits: int -> bool): (r: Result<(int, seq<Byte>)>) {
    match ParseElement(s)
    case Err => Err
    case Ok(p) =>
      if p.tag == tag && Minimal(p.content) && fits(SignedValue(p.content))
      then Ok((SignedValue(p.content), s[p.header + |p.content|..]))
      else Err
  }

  predicate FitsInt64(v: int) {
    -0x8000_0000_0000_0000 <= v < 0x8000_0000_0000_0000
  }

  predicate FitsUint64(v: int) {
    0 <= v < WORD
  }

  /** readASN1Int64 with tag INTEGER, ReadASN1Int64WithTag with any. */
  method ReadInt64(s: String, start: int, tag: Byte) returns (out: Result<int>)
    modifies s
    ensures match ParseInteger(old(s.s), tag, FitsInt64)
            case Err => out.Err?
            case Ok(p) => out == Ok(p.0) && s.s == p.1
  {
    hide SignedBytes;
    var e := s.ReadASN1(true);
    if e.Err? || e.value.0 != tag {
      return Err;
    }
    var ok := CheckASN1Integer(e.value.1);
    if !ok {
      return Err;
    }
    out := ASN1Signed(start, e.value.1);
    EightFit(e.value.1);
  }

  method ReadUint64(s: String) returns (out: Result<nat>)
    modifies s
    ensures match ParseInteger(old(s.s), 0x02, FitsUint64)
            case Err => out.Err?
            case Ok(p) => out == Ok(p.0) && s.s == p.1
  {
    var e := s.ReadASN1(true);
    if e.Err? || e.value.0 != INTEGER {
      return Err;
    }
    var ok := CheckASN1Integer(e.value.1);
    if !ok {
      return Err;
    }
    out := ASN1Unsigned(0, e.value.1);
  }

  lemma EightFit(n: seq<Byte>)
    requires Minimal(n)
    ensures |n| <= 8 <==> FitsInt64(SignedValue(n))
  {
    MinimalIsSignedBytes(n);
    SignedLength(SignedValue(n), 8);
    Wide();
  }

  /** What is written for a number is read back as that number, and what follows it is left. */
  lemma ReadWritten(tag: Byte, v: int, rest: seq<Byte>, fits: int -> bool)
    requires LowTag(tag) && |SignedBytes(v)| <= READABLE && fits(v)
    ensures ParseInteger(ElementBytes(tag, SignedBytes(v)) + rest, tag, fits) == Ok((v, rest))
  {
    var b := ElementBytes(tag, SignedBytes(v));
    ParseBuilt(tag, SignedBytes(v), rest);
    SignedRoundTrip(v);
    assert (b + rest)[|b|..] == rest;
    hide SignedBytes;
    hide ElementBytes;
  }

  /** What is read as a number is written back as the same bytes. */
  lemma WriteRead(s: seq<Byte>, tag: Byte, fits: int -> bool)
    requires ParseInteger(s, tag, fits).Ok?
    ensures var (v, rest) := ParseInteger(s, tag, fits).value;
            LowTag(tag) && fits(v) && |SignedBytes(v)| <= READABLE && s == ElementBytes(tag, SignedBytes(v)) + rest
  {
    var p := ParseElement(s).value;
    BuildParsed(s);
    MinimalIsSignedBytes(p.content);
    var n := p.header + |p.content|;
    assert s == s[..n] + s[n..];
    hide SignedBytes;
    hide ElementBytes;
    hide ParseElement;
  }

  /** All signed and unsigned 64-bit numbers survive being marshalled and read. */
  method WordsRoundTrip(tag: Byte, v: int, u: nat, rest: seq<Byte>, start: int)
    returns (i: Result<int>, j: Result<nat>)
    requires LowTag(tag) && FitsInt64(v) && u < WORD
    ensures i == Ok(v) && j == Ok(u)
  {
    var b := DerBuilder.MarshalInt64(tag, v);
    var s := new String(b.value + rest);
    i := ReadInt64(s, start, tag);
    ReadWritten(tag, v, rest, FitsInt64);
    b := DerBuilder.MarshalUint64(u);
    s := new String(b.value + rest);
    j := ReadUint64(s);
    ReadWritten(INTEGER, u, rest, FitsUint64);
  }

  /** What a builder puts behind a length prefix of up to four bytes is read back. */
  method PrefixRoundTrip(k: nat, ts: seq<Tree>, rest: seq<Byte>)
    returns (built: Result<seq<Byte>>, child: Result<seq<Byte>>)
    requires k <= 4
    ensures built.Ok? <==> BytesAll(ts).Ok? && |BytesAll(ts).value| < Pow2(8 * k)
    ensures built.Ok? ==> child == BytesAll(ts)
  {
    hide Pow2;
    child := Err;
    built := DerBuilder.Marshal(Prefixed(k, ts));
    if built.Ok? {
      PrefixedRead(k, ts, rest);
      var s := new String(built.value + rest);
      child := s.ReadLengthPrefixed(k);
    }
  }
}
