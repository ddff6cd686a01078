/**
  ASN.1 values in the Distinguished Encoding Rules (ITU-T X.690, sections 8.1.3, 8.3 and 10.1) as a
  specification: elements with a single-octet identifier, minimal lengths and minimal INTEGERs.
*/
module Der {
  import opened BigEndians
  import opened Bits
  import opened Results

  /** What a builder is asked to write: bytes, an ASN.1 element, or a prefix of lenLen length bytes. */
  datatype Tree =
    | Raw(bytes: seq<Byte>)
    | Element(tag: Byte, children: seq<Tree>)
    | Prefixed(lenLen: nat, children: seq<Tree>)

  const LONGEST := 0xffff_fffe // content of the longest element that can be built

  /** Minimal length bytes: the short form up to 127, otherwise the number of length bytes and these. */
  function LengthBytes(n: nat): (b: seq<Byte>)
    requires n <= LONGEST
    ensures b != []
  {
    if n < 0x80 then [n] else [ToByte(0x80 + |IntBytes(n)|)] + IntBytes(n)
  }

  /** A tag number of 31 announces an identifier of several octets, which is not supported. */
  predicate LowTag(tag: Byte) {
    tag % 32 != 31
  }

  function ElementBytes(tag: Byte, content: seq<Byte>): (b: seq<Byte>)
    requires |content| <= LONGEST
    ensures |b| >= 2
  {
    [tag] + LengthBytes(|content|) + content
  }

  /** n in exactly k bytes; what does not fit is cut off on the left. */
  function FixedBytes(n: nat, k: nat): (b: seq<Byte>)
    ensures |b| == k
  {
    if k == 0 then [] else FixedBytes(n / 256, k - 1) + [n % 256]
  }

  /** The bytes of a tree, or an error when a tag or a length has no room. */
  function Bytes(t: Tree): Result<seq<Byte>>
    decreases t, 0
  {
    match t
    case Raw(b) => Ok(b)
    case Element(tag, ts) =>
      if !LowTag(tag) then Err
      else
        (match BytesAll(ts)
         case Err => Err
         case Ok(c) => if |c| > LONGEST then Err else Ok(ElementBytes(tag, c)))
    case Prefixed(k, ts) =>
      match BytesAll(ts)
      case Err => Err
      case Ok(c) => if |c| >= Pow2(8 * k) then Err else Ok(FixedBytes(|c|, k) + c)
  }

  function BytesAll(ts: seq<Tree>): Result<seq<Byte>>
    decreases ts, 1
  {
    if ts == [] then Ok([])
    else
      match Bytes(ts[0])
      case Err => Err
      case Ok(b) =>
        match BytesAll(ts[1..])
        case Err => Err
        case Ok(rest) => Ok(b + rest)
  }

  /** The edges of the forms: 127 and 128 bytes of content, and a length of two bytes. */
  lemma KnownElements(tag: Byte, c: seq<Byte>)
    ensures |c| == 0x7f ==> ElementBytes(tag, c) == [tag, 0x7f] + c
    ensures |c| == 0x80 ==> ElementBytes(tag, c) == [tag, 0x81, 0x80] + c
    ensures |c| == 0x1234 ==> ElementBytes(tag, c) == [tag, 0x82, 0x12, 0x34] + c
  {
    assert IntBytes(0x1234) == [0x12] + [0x34];
  }

  /** A prefix of two bytes counts the content behind it, highest byte first. */
  lemma KnownPrefix(c: seq<Byte>)
    requires |c| == 0x1234
    ensures Bytes(Prefixed(2, [Raw(c)])) == Ok([0x12, 0x34] + c)
  {
    PowersOfTwo();
    BytesOfOne(Raw(c));
    assert FixedBytes(0x12, 1) == [] + [0x12];
    var k := 2;
    assert FixedBytes(0x1234, k) == FixedBytes(0x12, 1) + [0x34] == [0x12, 0x34];
    assert Bytes(Prefixed(k, [Raw(c)])) == Ok(FixedBytes(0x1234, k) + c);
  }

  lemma {:induction false} FixedIsMinimal(n: nat)
    ensures FixedBytes(n, |IntBytes(n)|) == IntBytes(n)
  {
    if n < 256 {
      assert FixedBytes(n / 256, 0) == [];
    } else {
      FixedIsMinimal(n / 256);
    }
  }

  lemma {:induction false} FixedValue(n: nat, k: nat)
    requires n < Pow2(8 * k)
    ensures BigEndian(FixedBytes(n, k)) == n
  {
    if k > 0 {
      Pow2Add(8, 8 * (k - 1));
      PowersOfTwo();
      FixedValue(n / 256, k - 1);
      var b := FixedBytes(n, k);
      assert b[..|b| - 1] == FixedBytes(n / 256, k - 1);
    }
  }

  lemma LengthOfLength(n: nat)
    requires n <= LONGEST
    ensures |IntBytes(n)| == if n <= 0xff then 1 else if n <= 0xffff then 2 else if n <= 0xff_ffff then 3 else 4
  {
  }

  // ---------------------------------------------------------------------------------------
  // Reading an element
  // ---------------------------------------------------------------------------------------

  /** An element at the start of some bytes: its identifier, the length of its header, and its content. */
  datatype Parsed = Parsed(tag: Byte, header: nat, content: seq<Byte>)

  const READABLE := 0xffff_fff9 // content of the longest element that can be read, 2^32 - 7

  function ParseElement(s: seq<Byte>): (r: Result<Parsed>)
    ensures r.Ok? ==> 2 <= r.value.header && r.value.header + |r.value.content| <= |s|
  {
    if |s| < 2 || !LowTag(s[0]) then Err
    else if s[1] < 0x80 then Cut(s, 2, s[1])
    else
      var k: nat := s[1] - 0x80;
      if k == 0 || k > 4 || |s| < 2 + k then Err
      else
        var n := BigEndian(s[2..2 + k]);
        if n < 0x80 || s[2] == 0 || n > 0xffff_ffff - 2 - k then Err else Cut(s, 2 + k, n)
  }

  function Cut(s: seq<Byte>, header: nat, n: nat): Result<Parsed>
    requires |s| > 0
  {
    if header + n > |s| then Err else Ok(Parsed(s[0], header, s[header..header + n]))
  }

  /** Reading recovers tag and content of an element of at most 2^32 - 7 bytes, and stops at its end. */
  lemma ParseBuilt(tag: Byte, content: seq<Byte>, rest: seq<Byte>)
    requires LowTag(tag) && |content| <= READABLE
    ensures ParseElement(ElementBytes(tag, content) + rest)
         == Ok(Parsed(tag, |ElementBytes(tag, content)| - |content|, content))
  {
    var n, s := |content|, ElementBytes(tag, content) + rest;
    if n < 0x80 {
      assert s[2..2 + n] == content;
    } else {
      LengthOfLength(n);
      IntBytesValue(n);
      LongForm(tag, content, rest);
      hide IntBytes;
      hide BigEndian;
      hide ElementBytes;
    }
  }

  /** Where the parts of an element with a long-form length are. */
  lemma LongForm(tag: Byte, content: seq<Byte>, rest: seq<Byte>)
    requires 0x80 <= |content| <= LONGEST
    ensures var s := ElementBytes(tag, content) + rest;
            var b := IntBytes(|content|);
            var k := |b|;
            |s| == 2 + k + |content| + |rest| && |ElementBytes(tag, content)| == 2 + k + |content| &&
            s[0] == tag && s[1] == 0x80 + k && s[2] == b[0] &&
            s[2..2 + k] == b && s[2 + k..2 + k + |content|] == content
  {
    LengthOfLength(|content|);
    var b := IntBytes(|content|);
    hide IntBytes;
    var s := ElementBytes(tag, content) + rest;
    assert s == [tag] + [ToByte(0x80 + |b|)] + b + content + rest;
  }

  /** Elements that can be built but are longer than that are refused. */
  lemma LongestRefused(tag: Byte, content: seq<Byte>, rest: seq<Byte>)
    requires LowTag(tag) && READABLE < |content| <= LONGEST
    ensures ParseElement(ElementBytes(tag, content) + rest).Err?
  {
    var n, s := |content|, ElementBytes(tag, content) + rest;
    LengthOfLength(n);
    IntBytesValue(n);
    LongForm(tag, content, rest);
    hide IntBytes;
    hide BigEndian;
    hide ElementBytes;
  }

  /** Whatever is read has the one encoding that its tag and content have. */
  lemma BuildParsed(s: seq<Byte>)
    requires ParseElement(s).Ok?
    ensures var p := ParseElement(s).value;
            |p.content| <= READABLE && LowTag(p.tag) &&
            s[..p.header + |p.content|] == ElementBytes(p.tag, p.content)
  {
    var p := ParseElement(s).value;
    var n := |p.content|;
    if s[1] < 0x80 {
      assert s[..2 + n] == [s[0]] + [s[1]] + s[2..2 + n];
    } else {
      var k := s[1] - 0x80;
      var b := s[2..2 + k];
      hide IntBytes;
      hide BigEndian;
      ShortestBytes(b);
      if k <= 3 {
        ThreeByteBound(b);
      }
      assert s[..2 + k + n] == [s[0]] + ([s[1]] + b) + s[2 + k..2 + k + n];
    }
  }

  lemma ThreeByteBound(b: seq<Byte>)
    requires 1 <= |b| <= 3 && b[0] != 0
    ensures BigEndian(b) < 0x100_0000
  {
    ShortestBytes(b);
    IntBytesLength(BigEndian(b), 3);
    PowersOfTwo();
  }

  // ---------------------------------------------------------------------------------------
  // Reading behind a length prefix
  // ---------------------------------------------------------------------------------------

  /** The content behind a length in the first k bytes, and what follows it. */
  function ParsePrefixed(s: seq<Byte>, k: nat): Result<(seq<Byte>, seq<Byte>)> {
    if |s| < k then Err
    else
      var n := BigEndian(s[..k]);
      if |s| < k + n then Err else Ok((s[k..k + n], s[k + n..]))
  }

  /** What is built behind a length prefix is read back, and what follows is left. */
  lemma PrefixedRead(k: nat, ts: seq<Tree>, rest: seq<Byte>)
    requires Bytes(Prefixed(k, ts)).Ok?
    ensures BytesAll(ts).Ok? && ParsePrefixed(Bytes(Prefixed(k, ts)).value + rest, k) == Ok((BytesAll(ts).value, rest))
  {
    var c := BytesAll(ts).value;
    var s := FixedBytes(|c|, k) + c + rest;
    FixedValue(|c|, k);
    assert s[..k] == FixedBytes(|c|, k) && s[k..k + |c|] == c && s[k + |c|..] == rest;
  }

  /** Whatever is read behind a length prefix can be built, and its one form is what was read. */
  lemma PrefixedWritten(k: nat, ts: seq<Tree>, s: seq<Byte>)
    requires ParsePrefixed(s, k).Ok? && BytesAll(ts) == Ok(ParsePrefixed(s, k).value.0)
    ensures Bytes(Prefixed(k, ts)).Ok? && s == Bytes(Prefixed(k, ts)).value + ParsePrefixed(s, k).value.1
  {
    var n := BigEndian(s[..k]);
    FitsItsBytes(s[..k]);
    FixedOfValue(s[..k]);
    assert s == s[..k] + s[k..k + n] + s[k + n..];
  }

  lemma {:induction false} FitsItsBytes(b: seq<Byte>)
    ensures BigEndian(b) < Pow2(8 * |b|)
  {
    if b != [] {
      FitsItsBytes(b[..|b| - 1]);
      Pow2Add(8, 8 * (|b| - 1));
      PowersOfTwo();
    }
  }

  lemma {:induction false} FixedOfValue(b: seq<Byte>)
    ensures FixedBytes(BigEndian(b), |b|) == b
  {
    if b != [] {
      var n := |b| - 1;
      FixedOfValue(b[..n]);
      ModUnique(BigEndian(b), 256, BigEndian(b[..n]), b[n]);
      assert b == b[..n] + [b[n]];
    }
  }

  /** An element has the bytes of its children, one behind the other, as its content. */
  lemma ElementRead(tag: Byte, ts: seq<Tree>, rest: seq<Byte>)
    requires Bytes(Element(tag, ts)).Ok? && |BytesAll(ts).value| <= READABLE
    ensures
      var b := Bytes(Element(tag, ts)).value;
      ParseElement(b + rest) == Ok(Parsed(tag, |b| - |BytesAll(ts).value|, BytesAll(ts).value))
  {
    ParseBuilt(tag, BytesAll(ts).value, rest);
  }

  lemma {:induction false} BytesInOrder(ts: seq<Tree>, us: seq<Tree>)
    ensures BytesAll(ts + us).Ok? <==> BytesAll(ts).Ok? && BytesAll(us).Ok?
    ensures BytesAll(ts + us).Ok? ==> BytesAll(ts + us).value == BytesAll(ts).value + BytesAll(us).value
    decreases |ts|
  {
    if ts == [] {
      assert ts + us == us;
    } else {
      BytesInOrder(ts[1..], us);
      assert (ts + us)[1..] == ts[1..] + us;
    }
  }

  lemma BytesOfOne(t: Tree)
    ensures BytesAll([t]) == Bytes(t)
  {
    assert [t][1..] == [];
    assert Bytes(t).Ok? ==> Bytes(t).value + [] == Bytes(t).value;
  }

  // ---------------------------------------------------------------------------------------
  // INTEGER
  // ---------------------------------------------------------------------------------------

  const INTEGER: Byte := 2

  /** v in two's complement, in the least number of bytes. */
  function SignedBytes(v: int): (b: seq<Byte>)
    ensures b != []
    decreases Abs(v)
  {
    if -0x80 <= v < 0x80 then [v % 256] else SignedBytes(v / 256) + [v % 256]
  }

  /** The edges of one byte. */
  lemma KnownIntegers()
    ensures SignedBytes(0x7f) == [0x7f] && SignedBytes(0x80) == [0x00, 0x80]
    ensures SignedBytes(-0x80) == [0x80] && SignedBytes(-0x81) == [0xff, 0x7f]
  {
    assert SignedBytes(0x80 / 256) == [0x00] && SignedBytes(-0x81 / 256) == [0xff];
  }

  function SignedValue(b: seq<Byte>): int
    requires b != []
  {
    BigEndian(b) - if b[0] < 0x80 then 0 else Pow2(8 * |b|)
  }

  /** Not empty, and the first nine bits are neither all zero nor all one. */
  predicate Minimal(b: seq<Byte>) {
    b != [] && (|b| >= 2 ==> !(b[0] == 0 && b[1] < 0x80) && !(b[0] == 0xff && b[1] >= 0x80))
  }

  /** All but the last byte of two's complement stand for the value divided by 256, rounded down. */
  lemma SignedSplit(b: seq<Byte>)
    requires |b| >= 2
    ensures SignedValue(b) == 256 * SignedValue(b[..|b| - 1]) + b[|b| - 1]
  {
    Pow2Add(8, 8 * (|b| - 1));
    PowersOfTwo();
  }

  lemma SignedOne(b: seq<Byte>)
    requires |b| == 1
    ensures SignedValue(b) == if b[0] < 0x80 then At(b, 0) else At(b, 0) - 256
  {
    PowersOfTwo();
    assert b[..0] == [];
    assert BigEndian(b) == At(b, 0);
    assert 8 * |b| == 8;
  }

  /** Every integer reads back from its bytes, which are minimal. */
  lemma {:induction false} SignedRoundTrip(v: int)
    ensures SignedValue(SignedBytes(v)) == v && Minimal(SignedBytes(v))
    decreases Abs(v)
  {
    var b := SignedBytes(v);
    if -0x80 <= v < 0x80 {
      SignedOne(b);
    } else {
      var rest := SignedBytes(v / 256);
      SignedRoundTrip(v / 256);
      assert b[..|b| - 1] == rest;
      SignedSplit(b);
      if |rest| == 1 {
        SignedOne(rest);
      }
    }
  }

  /** Minimal bytes are the bytes of their value. */
  lemma {:induction false} MinimalIsSignedBytes(b: seq<Byte>)
    requires Minimal(b)
    ensures SignedBytes(SignedValue(b)) == b
    decreases |b|
  {
    if |b| == 1 {
      SignedOne(b);
      assert b == [b[0]];
    } else {
      var rest := b[..|b| - 1];
      SignedSplit(b);
      if |rest| == 1 {
        SignedOne(rest);
        assert SignedBytes(SignedValue(rest)) == rest;
      } else {
        MinimalIsSignedBytes(rest);
        NotShort(rest);
      }
      var v := SignedValue(b);
      ModUnique(v, 256, SignedValue(rest), b[|b| - 1]);
      assert b == rest + [b[|b| - 1]];
    }
  }

  /** Two or more minimal bytes have a value outside of [-128, 127]. */
  lemma NotShort(b: seq<Byte>)
    requires Minimal(b) && |b| >= 2
    ensures SignedValue(b) < -0x80 || SignedValue(b) >= 0x80
    decreases |b|
  {
    var rest := b[..|b| - 1];
    SignedSplit(b);
    if |rest| == 1 {
      SignedOne(rest);
    } else {
      NotShort(rest);
    }
  }

  lemma {:induction false} SignedLength(v: int, k: nat)
    requires k > 0
    ensures |SignedBytes(v)| <= k <==> -Pow2(8 * k - 1) <= v < Pow2(8 * k - 1)
    decreases k
  {
    PowersOfTwo();
    if k > 1 {
      Pow2Add(8, 8 * (k - 1) - 1);
      if !(-0x80 <= v < 0x80) {
        SignedLength(v / 256, k - 1);
      }
    }
  }

  lemma {:induction false} SignedByteAt(v: int, j: nat)
    requires j < |SignedBytes(v)|
    ensures SignedBytes(v)[j] == ToByte(v / Pow2(8 * (|SignedBytes(v)| - 1 - j)))
    decreases Abs(v)
  {
    var b := SignedBytes(v);
    if j == |b| - 1 {
      DivOne(v);
    } else {
      SignedByteAt(v / 256, j);
      Pow2Add(8, 8 * (|b| - 2 - j));
      PowersOfTwo();
      DivDiv(v, 256, Pow2(8 * (|b| - 2 - j)));
    }
  }

  lemma Wide()
    ensures Pow2(63) == 0x8000_0000_0000_0000 && Pow2(64) == WORD && Pow2(71) >= WORD
  {
    EightBytes();
    Pow2Add(1, 63);
    Pow2Add(64, 7);
    PowersOfTwo();
  }
}
