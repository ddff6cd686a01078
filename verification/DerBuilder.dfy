/**
  The builder (builder.go): length prefixes are reserved before their content is known, filled in
  when a child is flushed, and widened by moving the content when an ASN.1 length turns out long.
*/
module DerBuilder {
  import opened BigEndians
  import opened Bits
  import opened Results
  import opened Sequences
  import opened Der

  class Builder {
    var err: bool
    var result: seq<Byte>
    var child: Builder?
    var offset: nat
    var pendingLenLen: nat
    var pendingIsASN1: bool

    constructor (buffer: seq<Byte>)
      ensures !err && result == buffer && child == null && offset == 0 && pendingLenLen == 0
    {
      err, result, child, offset, pendingLenLen, pendingIsASN1 := false, buffer, null, 0, 0, false;
    }

    /** A builder for content behind lenLen reserved bytes at position offset. */
    constructor Child(buffer: seq<Byte>, offset: nat, lenLen: nat, isASN1: bool)
      ensures !err && result == buffer && child == null && this.offset == offset
      ensures pendingLenLen == lenLen && pendingIsASN1 == isASN1
    {
      err, result, child := false, buffer, null;
      this.offset, pendingLenLen, pendingIsASN1 := offset, lenLen, isASN1;
    }

    /** Appends bytes; writes after an error are ignored. */
    method Add(b: seq<Byte>)
      requires child == null
      modifies this`result
      ensures result == if err then old(result) else old(result) + b
    {
      if err {
        return;
      }
      result := result + b;
    }

    /** Writes the low bytes of length into the k positions from at on; what is left of it is returned. */
    method PutLength(at: nat, k: nat, length: nat) returns (l: nat)
      requires at + k <= |result|
      modifies this`result
      ensures result == old(result)[..at] + FixedBytes(length, k) + old(result)[at + k..]
      ensures l == length / Pow2(8 * k)
    {
      l := length;
      var i := k;
      DivOne(length);
      while i > 0
        invariant 0 <= i <= k && |result| == |old(result)|
        invariant l == length / Pow2(8 * (k - i))
        invariant FixedBytes(length, k) == FixedBytes(l, i) + result[at + i..at + k]
        invariant result[..at + i] == old(result)[..at + i] && result[at + k..] == old(result)[at + k..]
      {
        i := i - 1;
        ghost var last, done := l, result[at + i + 1..at + k];
        result := result[at + i := ToByte(l)];
        l := l / 256;
        NextDigit(length, k - i - 1);
        assert FixedBytes(last, i + 1) == FixedBytes(l, i) + [ToByte(last)];
        assert result[at + i..at + k] == [ToByte(last)] + done;
      }
      assert FixedBytes(l, 0) == [];
      assert result == result[..at] + result[at..at + k] + result[at + k..];
    }

    /** What a flushed child adds, given its content. */
    static function Flushed(isASN1: bool, lenLen: nat, content: seq<Byte>): Result<seq<Byte>> {
      if isASN1 then if |content| > LONGEST then Err else Ok(LengthBytes(|content|) + content)
      else if |content| >= Pow2(8 * lenLen) then Err else Ok(FixedBytes(|content|, lenLen) + content)
    }

    /** Fills in the length of the finished child, and takes over its bytes. */
    method FlushChild()
      requires child != null && child != this && child.child == null && !err
      requires child.offset + child.pendingLenLen <= |child.result|
      requires child.pendingIsASN1 ==> child.pendingLenLen == 1
      modifies this`err, this`result, this`child, child
      ensures child == null
      ensures err ==> result == old(result)
      ensures old(child.err) ==> err
      ensures !old(child.err) ==>
        var start := old(child.offset + child.pendingLenLen);
        match Flushed(old(child.pendingIsASN1), old(child.pendingLenLen), old(child.result)[start..])
        case Err => err
        case Ok(b) => !err && result == old(child.result)[..old(child.offset)] + b
    {
      hide Flushed;
      var c := child;
      child := null;
      if c.err {
        err := true;
        return;
      }
      var ok := c.Finish();
      if !ok {
        err := true;
        return;
      }
      result := c.result;
    }

    /** Turns the reserved bytes and the content behind them into what a flushed child adds, if its length fits. */
    method Finish() returns (ok: bool)
      requires child == null && !err && offset + pendingLenLen <= |result|
      requires pendingIsASN1 ==> pendingLenLen == 1
      modifies this`result, this`offset, this`pendingLenLen
      ensures match Flushed(pendingIsASN1, old(pendingLenLen), old(result[offset + pendingLenLen..]))
              case Err => !ok
              case Ok(b) => ok && result == old(result[..offset]) + b
    {
      hide LengthBytes;
      hide FixedBytes;
      hide IntBytes;
      hide Pow2;
      ghost var before, content := result[..offset], result[offset + pendingLenLen..];
      var length := |result| - pendingLenLen - offset;
      if pendingIsASN1 {
        if length > LONGEST {
          return false;
        }
        var rest := MakeRoom(length);
        ok := FillIn(rest);
        Associate(before, LengthBytes(length), content);
      } else {
        ok := FillIn(length);
        Associate(before, FixedBytes(length, pendingLenLen), content);
      }
    }

    /** Puts the length, or what is left of it, into the reserved bytes. */
    method FillIn(length: nat) returns (ok: bool)
      requires offset + pendingLenLen <= |result|
      modifies this`result
      ensures ok == (length < Pow2(8 * pendingLenLen))
      ensures result == old(result[..offset]) + FixedBytes(length,
        pendingLenLen) + old(result[offset + pendingLenLen..])
    {
      hide FixedBytes;
      hide Pow2;
      var l := PutLength(offset, pendingLenLen, length);
      NoOverflow(length, 8 * pendingLenLen);
      ok := l == 0;
    }

    /** Puts in the first length byte and moves the content along to make space for the others. */
    method MakeRoom(length: nat) returns (rest: nat)
      requires child == null && !err && pendingLenLen == 1 && offset + 1 <= |result|
      requires length == |result| - 1 - offset <= LONGEST
      modifies this`result, this`offset, this`pendingLenLen
      ensures offset == old(offset) + 1 && rest < Pow2(8 * pendingLenLen)
      ensures offset + pendingLenLen <= |result| && result[offset + pendingLenLen..] == old(result)[old(offset) + 1..]
      ensures result[..offset] + FixedBytes(rest, pendingLenLen) == old(result)[..old(offset)] + LengthBytes(length)
    {
      var lenLen, lenByte: Byte;
      rest := length;
      if length > 0xff_ffff {
        lenLen, lenByte := 5, 0x84;
      } else if length > 0xffff {
        lenLen, lenByte := 4, 0x83;
      } else if length > 0xff {
        lenLen, lenByte := 3, 0x82;
      } else if length > 0x7f {
        lenLen, lenByte := 2, 0x81;
      } else {
        lenLen, lenByte := 1, length;
        rest := 0;
      }
      LengthOfLength(length);
      FixedIsMinimal(length);
      IntBytesLength(length, |IntBytes(length)|);
      ghost var before, content := result[..offset], result[offset + 1..];
      result := result[offset := lenByte];
      var extraBytes := lenLen - 1;
      if extraBytes != 0 {
        Add(seq(extraBytes, _ => 0));
        var childStart := offset + pendingLenLen;
        Move(childStart, extraBytes, content);
      }
      offset := offset + 1;
      pendingLenLen := extraBytes;
    }

    /** `copy(result[start+extra:], result[start:])`, in place and from the end, after room was made at the end. */
    method Move(start: nat, extra: nat, ghost content: seq<Byte>)
      requires start + |content| + extra == |result| && result[start..start + |content|] == content
      modifies this`result
      ensures |result| == |old(result)| && result[..start] == old(result)[..start]
      ensures result[start + extra..] == content
    {
      var n := |result| - extra - start;
      var i := n;
      while i > 0
        invariant 0 <= i <= n && |result| == |old(result)|
        invariant result[..start + i] == old(result)[..start + i]
        invariant result[start + extra + i..] == content[i..]
      {
        i := i - 1;
        assert result[start + i] == content[i];
        result := result[start + extra + i := result[start + i]];
        assert content[i..] == [content[i]] + content[i + 1..];
      }
    }

    /** Writes one tree: bytes, or an element or prefixed sequence whose content a continuation writes. */
    method Build(t: Tree)
      requires child == null
      modifies this`err, this`result, this`child
      ensures child == null && old(result) <= result
      ensures old(err) ==> err && result == old(result)
      ensures !old(err) ==> match Bytes(t) case Err => err case Ok(b) => !err && result == old(result) + b
      decreases t, 1
    {
      match t
      case Raw(b) =>
        Add(b);
      case Element(tag, ts) =>
        if err {
          return;
        }
        if tag % 32 == 31 {
          err := true;
          return;
        }
        Add([tag]);
        AddLengthPrefixed(1, true, ts, t);
        if !err {
          var c := BytesAll(ts).value;
          Associate(old(result), [tag], LengthBytes(|c|) + c);
          Associate([tag], LengthBytes(|c|), c);
        }
      case Prefixed(lenLen, ts) =>
        AddLengthPrefixed(lenLen, false, ts, t);
    }

    /** Reserves lenLen bytes, has a child write the content, and flushes it. */
    method AddLengthPrefixed(lenLen: nat, isASN1: bool, ts: seq<Tree>, ghost t: Tree)
      requires child == null && (isASN1 ==> lenLen == 1)
      requires (t.Element? || t.Prefixed?) && t.children == ts
      modifies this`err, this`result, this`child
      ensures child == null && old(result) <= result
      ensures old(err) ==> err && result == old(result)
      ensures !old(err) ==>
        match BytesAll(ts)
        case Err => err
        case Ok(c) =>
          match Flushed(isASN1, lenLen, c)
          case Err => err
          case Ok(b) => !err && result == old(result) + b
      decreases t, 0
    {
      if err {
        return;
      }
      var at := |result|;
      ghost var before := result;
      Add(seq(lenLen, _ => 0));
      ghost var reserved := result;
      var c := new Builder.Child(result, at, lenLen, isASN1);
      child := c;
      c.BuildAll(ts);
      if !c.err {
        ghost var content := BytesAll(ts).value;
        assert c.result == reserved + content;
        assert c.result[..at] == before;
        assert c.result[at + lenLen..] == content;
      }
      FlushChild();
    }

    method BuildAll(ts: seq<Tree>)
      requires child == null
      modifies this`err, this`result, this`child
      ensures child == null && old(result) <= result
      ensures old(err) ==> err && result == old(result)
      ensures !old(err) ==> match BytesAll(ts) case Err => err case Ok(b) => !err && result == old(result) + b
      decreases ts, 2
    {
      hide Bytes;
      hide BytesAll;
      ghost var before := result;
      BothParts(ts, before);
      if ts != [] {
        Build(ts[0]);
        BuildAll(ts[1..]);
      }
    }

    /** What was built behind the offset, unless something failed. */
    method Output() returns (r: Result<seq<Byte>>)
      requires offset <= |result|
      ensures r == if err then Err else Ok(result[offset..])
    {
      return if err then Err else Ok(result[offset..]);
    }
  }

  lemma BothParts(ts: seq<Tree>, before: seq<Byte>)
    ensures ts == [] ==> BytesAll(ts) == Ok([])
    ensures ts != [] ==>
      BytesAll(ts).Ok? == (Bytes(ts[0]).Ok? && BytesAll(ts[1..]).Ok?) &&
      (BytesAll(ts).Ok? ==> before + BytesAll(ts).value == before + Bytes(ts[0]).value + BytesAll(ts[1..]).value)
  {
    if BytesAll(ts).Ok? && ts != [] {
      Associate(before, Bytes(ts[0]).value, BytesAll(ts[1..]).value);
    }
  }

  lemma NextDigit(n: nat, j: nat)
    ensures (n / Pow2(8 * j)) / 256 == n / Pow2(8 * (j + 1))
  {
    Pow2Add(8 * j, 8);
    PowersOfTwo();
    DivDiv(n, Pow2(8 * j), 256);
  }

  lemma NoOverflow(n: nat, k: nat)
    ensures n / Pow2(k) == 0 <==> n < Pow2(k)
  {
    if n < Pow2(k) {
      ModUnique(n, Pow2(k), 0, n);
    }
  }

  /** A whole message: what the builder makes of a tree is its encoding, or an error if it has none. */
  method Marshal(t: Tree) returns (r: Result<seq<Byte>>)
    ensures r == Bytes(t)
  {
    var b := new Builder([]);
    b.Build(t);
    r := b.Output();
  }

  // ---------------------------------------------------------------------------------------
  // INTEGER
  // ---------------------------------------------------------------------------------------

  /** The content that addASN1Signed and AddASN1Uint64 write, one byte after the other. */
  method IntegerContent(v: int) returns (content: seq<Byte>)
    ensures content == SignedBytes(v)
  {
    var length := 1;
    var i := v;
    while i >= 0x80 || i < -0x80
      invariant length >= 1 && |SignedBytes(v)| == length - 1 + |SignedBytes(i)|
      decreases Abs(i)
    {
      i := i / 256;
      length := length + 1;
    }
    content := [];
    while length > 0
      invariant 0 <= length && |content| + length == |SignedBytes(v)|
      invariant content == SignedBytes(v)[..|content|]
    {
      SignedByteAt(v, |content|);
      content := content + [ToByte(v / Pow2(8 * (length - 1)))];
      length := length - 1;
    }
  }

  method MarshalInt64(tag: Byte, v: int) returns (r: Result<seq<Byte>>)
    requires -0x8000_0000_0000_0000 <= v < 0x8000_0000_0000_0000
    ensures |SignedBytes(v)| <= 8
    ensures r == if LowTag(tag) then Ok(ElementBytes(tag, SignedBytes(v))) else Err
  {
    var content := IntegerContent(v);
    SignedLength(v, 8);
    Wide();
    r := Marshal(Element(tag, [Raw(content)]));
    OneChild(content);
  }

  method MarshalUint64(v: nat) returns (r: Result<seq<Byte>>)
    requires v < WORD
    ensures |SignedBytes(v)| <= 9
    ensures r == Ok(ElementBytes(0x02, SignedBytes(v)))
  {
    var content := IntegerContent(v);
    SignedLength(v, 9);
    Wide();
    r := Marshal(Element(INTEGER, [Raw(content)]));
    OneChild(content);
  }

  lemma OneChild(content: seq<Byte>)
    ensures BytesAll([Raw(content)]) == Ok(content)
  {
    var ts := [Raw(content)];
    assert ts[1..] == [];
    assert content + [] == content;
  }
}
