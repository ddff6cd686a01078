/** Splitting encoded values without decoding them (raw.go). */
module RlpRaw {
  import opened BigEndians
  import opened Bits
  import opened Results
  import opened Rlp
  import RlpEncode

  datatype Error = UnexpectedEOF | CanonSize | ValueTooLarge | ExpectedString | ExpectedList

  datatype Outcome<T> = Done(value: T) | Failed(error: Error)

  datatype Parts = Parts(kind: Kind, content: seq<Byte>, rest: seq<Byte>)

  /** The size of a list whose content is that long. */
  method ListSize(contentSize: nat) returns (n: nat)
    ensures forall xs: seq<Item> :: |EncodeAll(xs)| == contentSize ==> n == |Encode(List(xs))|
  {
    var h := RlpEncode.HeadSize(contentSize);
    n := h + contentSize;
  }

  method ReadSize(b: seq<Byte>, slen: nat) returns (size: Outcome<nat>)
    requires 1 <= slen <= 8
    ensures if ParseSize(b, slen).Ok? then size == Done(ParseSize(b, slen).value) else size.Failed?
    ensures size == Failed(UnexpectedEOF) <==> |b| < slen
  {
    if slen > |b| {
      return Failed(UnexpectedEOF);
    }
    var s := BigEndian(b[..slen]);
    if s < 56 || b[0] == 0 {
      return Failed(CanonSize);
    }
    return Done(s);
  }

  /** Kind and sizes of the value at the start of buf. */
  method ReadKind(buf: seq<Byte>) returns (head: Outcome<Head>)
    ensures if ParseValue(buf).Ok? then head == Done(ParseValue(buf).value) else head.Failed?
  {
    if |buf| == 0 {
      return Failed(UnexpectedEOF);
    }
    var b := At(buf, 0);
    var k, tagsize, contentsize := ByteKind, 0, 1;
    if b < 0x80 {
    } else if b < 0xB8 {
      k, tagsize, contentsize := StringKind, 1, b - 0x80;
      if contentsize == 1 && |buf| > 1 && buf[1] < 128 {
        return Failed(CanonSize);
      }
    } else if b < 0xC0 {
      var size := ReadSize(buf[1..], b - 0xB7);
      if size.Failed? {
        return Failed(size.error);
      }
      k, tagsize, contentsize := StringKind, b - 0xB7 + 1, size.value;
    } else if b < 0xF8 {
      k, tagsize, contentsize := ListKind, 1, b - 0xC0;
    } else {
      var size := ReadSize(buf[1..], b - 0xF7);
      if size.Failed? {
        return Failed(size.error);
      }
      k, tagsize, contentsize := ListKind, b - 0xF7 + 1, size.value;
    }
    if contentsize > |buf| - tagsize {
      return Failed(ValueTooLarge);
    }
    return Done(Head(k, tagsize, contentsize));
  }

  /** The content of the first value and what follows it. */
  method Split(b: seq<Byte>) returns (parts: Outcome<Parts>)
    ensures parts.Done? <==> ParseValue(b).Ok?
    ensures parts.Done? ==> SplitOf(b) == Ok(parts.value)
  {
    var head := ReadKind(b);
    if head.Failed? {
      return Failed(head.error);
    }
    var ts, cs := head.value.length, head.value.size;
    return Done(Parts(head.value.kind, b[ts..ts + cs], b[ts + cs..]));
  }

  function SplitOf(b: seq<Byte>): Result<Parts> {
    match ParseValue(b)
    case Err => Err
    case Ok(h) => Ok(Parts(h.kind, Content(b, h), b[h.length + h.size..]))
  }

  method SplitString(b: seq<Byte>) returns (parts: Outcome<Parts>)
    ensures parts.Done? <==> SplitOf(b).Ok? && SplitOf(b).value.kind != ListKind
    ensures parts.Done? ==> SplitOf(b) == Ok(parts.value)
  {
    parts := Split(b);
    if parts.Done? && parts.value.kind == ListKind {
      return Failed(ExpectedString);
    }
  }

  method SplitList(b: seq<Byte>) returns (parts: Outcome<Parts>)
    ensures parts.Done? <==> SplitOf(b).Ok? && SplitOf(b).value.kind == ListKind
    ensures parts.Done? ==> SplitOf(b) == Ok(parts.value)
  {
    parts := Split(b);
    if parts.Done? && parts.value.kind != ListKind {
      return Failed(ExpectedList);
    }
  }

  /** An encoded item splits into its content and what follows it. */
  lemma SplitEncoding(x: Item, rest: seq<Byte>)
    requires |Encode(x)| < WORD
    ensures SplitOf(Encode(x) + rest).Ok? && SplitOf(Encode(x) + rest).value.rest == rest
    ensures x.Str? ==> SplitOf(Encode(x) + rest).value.content == x.bytes &&
                       SplitOf(Encode(x) + rest).value.kind != ListKind
    ensures x.List? ==> SplitOf(Encode(x) + rest).value.content == EncodeAll(x.items) &&
                        SplitOf(Encode(x) + rest).value.kind == ListKind
  {
    hide Header;
    hide ParseValue;
    match x
    case Str(s) =>
      if |s| == 1 && s[0] < 0x80 {
        SmallByte(s, rest);
      } else {
        ValueOf(0x80, 0xB7, StringKind, s, rest);
      }
    case List(xs) =>
      ValueOf(0xC0, 0xF7, ListKind, EncodeAll(xs), rest);
  }

  /** A small byte, or a string or list of any content under its shortest header. */
  ghost predicate IsValue(v: seq<Byte>) {
    || (|v| == 1 && v[0] < 0x80)
    || (exists c: seq<Byte> :: v == Header(0x80, 0xB7, |c|) + c && |c| < WORD && !(|c| == 1 && c[0] < 0x80))
    || (exists c: seq<Byte> :: v == Header(0xC0, 0xF7, |c|) + c && |c| < WORD)
  }

  function Joined(vs: seq<seq<Byte>>): seq<Byte> {
    if vs == [] then [] else vs[0] + Joined(vs[1..])
  }

  ghost predicate AreValues(vs: seq<seq<Byte>>, b: seq<Byte>) {
    Joined(vs) == b && forall i :: 0 <= i < |vs| ==> IsValue(vs[i])
  }

  lemma ValueComesFirst(v: seq<Byte>, rest: seq<Byte>)
    requires IsValue(v)
    ensures ParseValue(v + rest).Ok?
    ensures var h := ParseValue(v + rest).value; h.length + h.size == |v|
  {
    hide Header;
    hide ParseValue;
    if |v| == 1 && v[0] < 0x80 {
      SmallByte(v, rest);
    } else if c: seq<Byte> :| v == Header(0x80, 0xB7, |c|) + c && |c| < WORD && !(|c| == 1 && c[0] < 0x80) {
      ValueOf(0x80, 0xB7, StringKind, c, rest);
    } else {
      var c: seq<Byte> :| v == Header(0xC0, 0xF7, |c|) + c && |c| < WORD;
      ValueOf(0xC0, 0xF7, ListKind, c, rest);
    }
  }

  lemma UnderHeader(c: seq<Byte>)
    requires |c| < WORD
    ensures IsValue(Header(0xC0, 0xF7, |c|) + c)
    ensures if |c| == 1 && c[0] < 0x80 then IsValue(c) else IsValue(Header(0x80, 0xB7, |c|) + c)
  {
    hide Header;
  }

  lemma FirstIsValue(b: seq<Byte>)
    requires ParseValue(b).Ok?
    ensures var h := ParseValue(b).value; IsValue(b[..h.length + h.size])
  {
    hide Header;
    hide ParseHead;
    hide IsValue;
    var h := ParseValue(b).value;
    var v, c := b[..h.length + h.size], Content(b, h);
    HeadIsHeader(b, h);
    assert v == b[..h.length] + c;
    assert h.size == 1 ==> c[0] == b[h.length];
    UnderHeader(c);
  }

  lemma {:induction false} CountOfValues(vs: seq<seq<Byte>>, b: seq<Byte>)
    requires AreValues(vs, b)
    ensures Count(b) == Ok(|vs|)
  {
    hide IsValue;
    hide ParseValue;
    if vs != [] {
      var rest := Joined(vs[1..]);
      ValueComesFirst(vs[0], rest);
      assert b[|vs[0]|..] == rest;
      CountOfValues(vs[1..], rest);
    }
  }

  lemma {:induction false} CountedAreValues(b: seq<Byte>) returns (vs: seq<seq<Byte>>)
    requires Count(b).Ok?
    ensures AreValues(vs, b)
  {
    hide IsValue;
    hide ParseValue;
    vs := [];
    if b != [] {
      FirstIsValue(b);
      var n := ParseValue(b).value.length + ParseValue(b).value.size;
      var others := CountedAreValues(b[n..]);
      vs := [b[..n]] + others;
      assert vs[1..] == others;
      assert b[..n] + b[n..] == b;
    }
  }

  /** How many values b consists of, by their headers alone. */
  function Count(b: seq<Byte>): Result<nat>
    decreases |b|
  {
    if b == [] then Ok(0)
    else
      match ParseValue(b)
      case Err => Err
      case Ok(h) =>
        match Count(b[h.length + h.size..])
        case Err => Err
        case Ok(n) => Ok(n + 1)
  }

  lemma CountIsOfValues(b: seq<Byte>)
    ensures Count(b).Ok? <==> exists vs :: AreValues(vs, b)
    ensures forall vs :: AreValues(vs, b) ==> Count(b) == Ok(|vs|)
  {
    hide AreValues;
    hide Count;
    forall vs | AreValues(vs, b) ensures Count(b) == Ok(|vs|) {
      CountOfValues(vs, b);
    }
    if Count(b).Ok? {
      var vs := CountedAreValues(b);
    }
  }

  lemma CountFromFirst(b: seq<Byte>)
    ensures b == [] ==> Count(b) == Ok(0)
    ensures b != [] && ParseValue(b).Err? ==> Count(b).Err?
    ensures b != [] && ParseValue(b).Ok? ==>
      var h := ParseValue(b).value;
      var n := Count(b[h.length + h.size..]);
      (Count(b).Ok? <==> n.Ok?) && (n.Ok? ==> Count(b).value == n.value + 1)
  {
    hide ParseValue;
  }

  /** The number of values that the bytes are, one after another; an error exactly when they are none. */
  method CountValues(b: seq<Byte>) returns (n: Outcome<nat>)
    ensures if Count(b).Ok? then n == Done(Count(b).value) else n.Failed?
    ensures n.Done? <==> exists vs :: AreValues(vs, b)
    ensures forall vs :: AreValues(vs, b) ==> n == Done(|vs|)
  {
    hide AreValues;
    hide ParseValue;
    hide Count;
    CountIsOfValues(b);
    CountFromFirst([]);
    var i, rest := 0, b;
    while |rest| > 0
      invariant Count(b).Ok? <==> Count(rest).Ok?
      invariant Count(b).Ok? ==> Count(b).value == i + Count(rest).value
      decreases |rest|
    {
      CountFromFirst(rest);
      var head := ReadKind(rest);
      if head.Failed? {
        return Failed(head.error);
      }
      rest := rest[head.value.length + head.value.size..];
      i := i + 1;
    }
    return Done(i);
  }

  /** The content of an encoded list counts as many values as the list has items. */
  lemma {:induction false} CountEncodings(xs: seq<Item>)
    requires |EncodeAll(xs)| < WORD
    ensures Count(EncodeAll(xs)) == Ok(|xs|)
  {
    if xs != [] {
      var rest := EncodeAll(xs[1..]);
      SplitEncoding(xs[0], rest);
      assert EncodeAll(xs) == Encode(xs[0]) + rest;
      CountEncodings(xs[1..]);
    }
  }
}
