/**
  Recursive Length Prefix as a specification (appendix B of the Ethereum Yellow Paper): the encoding of
  nested byte strings, a parser on byte sequences, and the theorem that they are inverse bijections.
*/
module Rlp {
  import opened BigEndians
  import opened Bits
  import opened Results

  datatype Item = Str(bytes: seq<Byte>) | List(items: seq<Item>)

  // ---------------------------------------------------------------------------------------
  // Encoding
  // ---------------------------------------------------------------------------------------

  /** The header of a string (small 0x80, large 0xB7) or list (0xC0, 0xF7) of the given size. */
  function Header(small: Byte, large: Byte, size: nat): (h: seq<Byte>)
    ensures |h| > 0
  {
    if size < 56 then [ToByte(small + size)] else [ToByte(large + |IntBytes(size)|)] + IntBytes(size)
  }

  function Encode(x: Item): (b: seq<Byte>)
    ensures |b| > 0
    decreases x
  {
    match x
    case Str(s) => if |s| == 1 && s[0] < 0x80 then s else Header(0x80, 0xB7, |s|) + s
    case List(xs) => Header(0xC0, 0xF7, |EncodeAll(xs)|) + EncodeAll(xs)
  }

  function EncodeAll(xs: seq<Item>): seq<Byte>
    decreases xs
  {
    if xs == [] then [] else Encode(xs[0]) + EncodeAll(xs[1..])
  }

  /** An unsigned integer as a string without leading zeros. */
  function UintItem(i: nat): Item {
    Str(if i == 0 then [] else IntBytes(i))
  }

  /** The edges of the forms: a small byte, 55 and 56 bytes, and a size of two bytes. */
  lemma KnownEncodings(s: seq<Byte>)
    ensures Encode(Str([])) == [0x80] && Encode(Str([0x7f])) == [0x7f] && Encode(Str([0x80])) == [0x81, 0x80]
    ensures Encode(List([])) == [0xc0]
    ensures |s| == 55 ==> Encode(Str(s)) == [0xb7] + s
    ensures |s| == 56 ==> Encode(Str(s)) == [0xb8, 56] + s
    ensures |s| == 0x1234 ==> Encode(Str(s)) == [0xb9, 0x12, 0x34] + s
    ensures |s| == 54 ==> Encode(List([Str(s)])) == [0xf7, 0xb6] + s
    ensures |s| == 55 ==> Encode(List([Str(s)])) == [0xf8, 56, 0xb7] + s
  {
    OneItem(s);
    assert IntBytes(0x1234) == [0x12] + [0x34];
    assert [0xb9] + IntBytes(0x1234) == [0xb9, 0x12, 0x34];
  }

  lemma OneItem(s: seq<Byte>)
    ensures EncodeAll([Str(s)]) == Encode(Str(s))
  {
    assert [Str(s)][1..] == [];
    assert Encode(Str(s)) + [] == Encode(Str(s));
  }

  // ---------------------------------------------------------------------------------------
  // Parsing
  // ---------------------------------------------------------------------------------------

  datatype Kind = ByteKind | StringKind | ListKind

  /** What the first bytes of a value say: its kind, the header's length and the content's. */
  datatype Head = Head(kind: Kind, length: nat, size: nat)

  /** The big-endian size of n bytes after a long-form tag; sizes that the short form covers are refused. */
  function ParseSize(b: seq<Byte>, n: nat): Result<nat>
    requires n > 0
  {
    if |b| < n || b[0] == 0 || BigEndian(b[..n]) < 56 then Err else Ok(BigEndian(b[..n]))
  }

  function ParseHead(b: seq<Byte>): Result<Head> {
    if b == [] then Err
    else
      var t := At(b, 0);
      if t < 0x80 then Ok(Head(ByteKind, 0, 1))
      else if t < 0xB8 then Ok(Head(StringKind, 1, t - 0x80))
      else if t < 0xC0 then LongHead(StringKind, b, t - 0xB7)
      else if t < 0xF8 then Ok(Head(ListKind, 1, t - 0xC0))
      else LongHead(ListKind, b, t - 0xF7)
  }

  function LongHead(kind: Kind, b: seq<Byte>, n: nat): Result<Head>
    requires b != [] && n > 0
  {
    match ParseSize(b[1..], n)
    case Ok(size) => Ok(Head(kind, 1 + n, size))
    case Err => Err
  }

  /** The head, provided that the content is all there and a single small byte has no header. */
  function ParseValue(b: seq<Byte>): (r: Result<Head>)
    ensures r.Ok? ==> 0 < r.value.length + r.value.size <= |b|
    ensures r.Ok? && r.value.kind == ListKind ==> 0 < r.value.length
  {
    match ParseHead(b)
    case Err => Err
    case Ok(h) =>
      if h.length + h.size > |b| then Err
      else if h.kind == StringKind && h.size == 1 && b[h.length] < 0x80 then Err
      else Ok(h)
  }

  function Content(b: seq<Byte>, h: Head): seq<Byte>
    requires h.length + h.size <= |b|
  {
    b[h.length..h.length + h.size]
  }

  /** The item at the start of b, and how many bytes it takes. */
  function Parse(b: seq<Byte>): (r: Result<(Item, nat)>)
    ensures r.Ok? ==> 0 < r.value.1 <= |b|
    decreases |b|, 1
  {
    match ParseValue(b)
    case Err => Err
    case Ok(h) =>
      if h.kind != ListKind then Ok((Str(Content(b, h)), h.length + h.size))
      else
        match ParseAll(Content(b, h))
        case Err => Err
        case Ok(xs) => Ok((List(xs), h.length + h.size))
  }

  function ParseAll(b: seq<Byte>): Result<seq<Item>>
    decreases |b|, 2
  {
    if b == [] then Ok([])
    else
      match Parse(b)
      case Err => Err
      case Ok((x, n)) =>
        match ParseAll(b[n..])
        case Err => Err
        case Ok(xs) => Ok([x] + xs)
  }

  // ---------------------------------------------------------------------------------------
  // Parsing inverts encoding
  // ---------------------------------------------------------------------------------------

  predicate Tags(small: Byte, large: Byte, kind: Kind) {
    (small == 0x80 && large == 0xB7 && kind == StringKind) || (small == 0xC0 && large == 0xF7 && kind == ListKind)
  }

  /** A header parses to its own length and the size it was made for. */
  lemma ParseHeader(small: Byte, large: Byte, kind: Kind, size: nat, rest: seq<Byte>)
    requires size < WORD && Tags(small, large, kind)
    ensures ParseHead(Header(small, large, size) + rest) == Ok(Head(kind, |Header(small, large, size)|, size))
  {
    if size >= 56 {
      ParseLongHeader(small, large, kind, size, rest);
    } else {
      assert (Header(small, large, size) + rest)[0] == small + size;
    }
  }

  lemma ParseLongHeader(small: Byte, large: Byte, kind: Kind, size: nat, rest: seq<Byte>)
    requires 56 <= size < WORD && Tags(small, large, kind)
    ensures ParseHead(Header(small, large, size) + rest) == Ok(Head(kind, |Header(small, large, size)|, size))
  {
    SizeBytes(size);
    ParseSizeBytes(size, rest);
    var s := IntBytes(size);
    hide IntBytes;
    hide ParseSize;
    var b := Header(small, large, size) + rest;
    assert b[0] == large + |s|;
    assert b[1..] == s + rest;
  }

  lemma ParseSizeBytes(size: nat, rest: seq<Byte>)
    requires size >= 56
    ensures ParseSize(IntBytes(size) + rest, |IntBytes(size)|) == Ok(size)
  {
    var s := IntBytes(size);
    IntBytesValue(size);
    assert (s + rest)[..|s|] == s;
  }

  lemma SizeIsBytes(b: seq<Byte>, n: nat)
    requires 0 < n <= 8 && ParseSize(b, n).Ok?
    ensures n <= |b| && IntBytes(ParseSize(b, n).value) == b[..n] && 56 <= ParseSize(b, n).value < WORD
  {
    ShortestBytes(b[..n]);
    EightBytes();
    hide Pow2;
    IntBytesLength(BigEndian(b[..n]), 8);
  }

  lemma ValueOf(small: Byte, large: Byte, kind: Kind, content: seq<Byte>, rest: seq<Byte>)
    requires |content| < WORD && Tags(small, large, kind)
    requires kind == StringKind ==> !(|content| == 1 && content[0] < 0x80)
    ensures var h := Header(small, large, |content|);
            ParseValue(h + content + rest) == Ok(Head(kind, |h|, |content|))
    ensures var h := Header(small, large, |content|);
            Content(h + content + rest, Head(kind, |h|, |content|)) == content
  {
    var h := Header(small, large, |content|);
    ParseHeader(small, large, kind, |content|, content + rest);
    assert h + content + rest == h + (content + rest);
  }

  lemma SmallByte(s: seq<Byte>, rest: seq<Byte>)
    requires |s| == 1 && s[0] < 0x80
    ensures ParseValue(s + rest) == Ok(Head(ByteKind, 0, 1)) && Content(s + rest, Head(ByteKind, 0, 1)) == s
  {
    assert (s + rest)[0] == s[0];
  }

  /** Decoding an encoding returns the item and stops at its end. */
  lemma {:induction false} ParseEncode(x: Item, rest: seq<Byte>)
    requires |Encode(x)| < WORD
    ensures Parse(Encode(x) + rest) == Ok((x, |Encode(x)|))
    decreases x
  {
    hide Header;
    hide ParseValue;
    match x
    case Str(s) =>
      if |s| == 1 && s[0] < 0x80 {
        SmallByte(s, rest);
      } else {
        ValueOf(0x80, 0xB7, StringKind, s, rest);
      }
    case List(xs) =>
      ValueOf(0xC0, 0xF7, ListKind, EncodeAll(xs), rest);
      ParseAllEncode(xs);
  }

  lemma {:induction false} ParseAllEncode(xs: seq<Item>)
    requires |EncodeAll(xs)| < WORD
    ensures ParseAll(EncodeAll(xs)) == Ok(xs)
    decreases xs
  {
    if xs != [] {
      var rest := EncodeAll(xs[1..]);
      ParseEncode(xs[0], rest);
      assert EncodeAll(xs)[|Encode(xs[0])|..] == rest;
      ParseAllEncode(xs[1..]);
      assert xs == [xs[0]] + xs[1..];
    }
  }

  // ---------------------------------------------------------------------------------------
  // Encoding inverts parsing
  // ---------------------------------------------------------------------------------------

  /** A head that parses is the canonical header of its size. */
  lemma HeadIsHeader(b: seq<Byte>, h: Head)
    requires ParseHead(b) == Ok(h) && h.length <= |b|
    ensures h.kind == ByteKind ==> h.length == 0 && h.size == 1 && b[0] < 0x80
    ensures h.kind == StringKind ==> b[..h.length] == Header(0x80, 0xB7, h.size)
    ensures h.kind == ListKind ==> b[..h.length] == Header(0xC0, 0xF7, h.size)
    ensures h.size < WORD
  {
    var t := At(b, 0);
    if h.length > 1 {
      SizeIsBytes(b[1..], h.length - 1);
      hide IntBytes;
      hide BigEndian;
      assert b[..h.length] == [b[0]] + b[1..][..h.length - 1];
    } else if h.length == 1 {
      assert b[..1] == [b[0]];
    }
  }

  /** Whatever the parser accepts re-encodes to the bytes it was parsed from. */
  lemma {:induction false} EncodeParse(b: seq<Byte>)
    requires Parse(b).Ok?
    ensures Encode(Parse(b).value.0) == b[..Parse(b).value.1]
    decreases |b|, 1
  {
    hide ParseAll;
    hide EncodeAll;
    hide Header;
    var h := ParseValue(b).value;
    var c := Content(b, h);
    HeadIsHeader(b, h);
    assert b[..h.length + h.size] == b[..h.length] + c;
    if h.kind == ByteKind {
      assert c == [b[0]];
    } else if h.kind == ListKind {
      EncodeParseAll(c);
    } else if h.size == 1 {
      assert c[0] == b[h.length];
    }
  }

  lemma {:induction false} EncodeParseAll(b: seq<Byte>)
    requires ParseAll(b).Ok?
    ensures EncodeAll(ParseAll(b).value) == b
    decreases |b|, 2
  {
    hide Encode;
    hide EncodeAll;
    hide Parse;
    hide ParseAll;
    if b == [] {
      NoItems();
    } else {
      FirstOfAll(b);
      var (x, n) := Parse(b).value;
      EncodeParse(b);
      EncodeParseAll(b[n..]);
      EncodeFirst(x, ParseAll(b[n..]).value);
      assert b == b[..n] + b[n..];
    }
  }

  lemma NoItems()
    ensures ParseAll([]) == Ok([]) && EncodeAll([]) == []
  {
  }

  lemma FirstOfAll(b: seq<Byte>)
    requires b != [] && ParseAll(b).Ok?
    ensures
      Parse(b).Ok? &&
      var (x, n) := Parse(b).value;
      0 < n <= |b| && ParseAll(b[n..]).Ok? && ParseAll(b).value == [x] + ParseAll(b[n..]).value
  {
    hide Parse;
  }

  lemma EncodeFirst(x: Item, xs: seq<Item>)
    ensures EncodeAll([x] + xs) == Encode(x) + EncodeAll(xs)
  {
    hide Encode;
    assert ([x] + xs)[1..] == xs;
  }

  /** Different items have different encodings, and no encoding is the beginning of another. */
  lemma PrefixFree(x: Item, y: Item, rest: seq<Byte>)
    requires |Encode(x)| < WORD && |Encode(y)| < WORD && Encode(x) == Encode(y) + rest
    ensures x == y && rest == []
  {
    ParseEncode(x, []);
    ParseEncode(y, rest);
    assert Encode(x) + [] == Encode(x);
  }
}
