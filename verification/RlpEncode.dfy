/**
  The RLP encoder: strings are written at once and list headers recorded, to be merged in when the
  buffer is read out (encode.go).
*/
module RlpEncode {
  import opened BigEndians
  import opened Bits
  import opened Results
  import opened Sequences
  import opened Rlp

  // ---------------------------------------------------------------------------------------
  // Integers and headers
  // ---------------------------------------------------------------------------------------

  /** The least number of bytes that i takes. */
  method IntSize(i: nat) returns (size: nat)
    ensures size == |IntBytes(i)|
  {
    size := 1;
    var rest: nat := i / 256;
    while rest != 0
      invariant |IntBytes(i)| == if rest == 0 then size else size + |IntBytes(rest)|
      decreases rest
    {
      size := size + 1;
      rest := rest / 256;
    }
  }

  method HeadSize(size: nat) returns (n: nat)
    ensures n == |Header(0x80, 0xB7, size)| == |Header(0xC0, 0xF7, size)|
  {
    if size < 56 {
      n := 1;
    } else {
      var s := IntSize(size);
      n := 1 + s;
    }
  }

  lemma Bytes1(i: nat)
    requires 0 <= i < 0x100
    ensures IntBytes(i) == [ToByte(i)]
  {
  }

  lemma Bytes2(i: nat)
    requires 0x100 <= i < 0x10000
    ensures IntBytes(i) == [ToByte(i / 0x100), ToByte(i)]
  {
    Bytes1(i / 0x100);
  }

  lemma Bytes3(i: nat)
    requires 0x10000 <= i < 0x1000000
    ensures IntBytes(i) == [ToByte(i / 0x10000), ToByte(i / 0x100), ToByte(i)]
  {
    Bytes2(i / 0x100);
    DivDiv(i, 0x100, 0x100);
  }

  lemma Bytes4(i: nat)
    requires 0x1000000 <= i < 0x100000000
    ensures IntBytes(i) == [ToByte(i / 0x1000000), ToByte(i / 0x10000), ToByte(i / 0x100), ToByte(i)]
  {
    Bytes3(i / 0x100);
    DivDiv(i, 0x100, 0x100);
    DivDiv(i, 0x100, 0x10000);
  }

  lemma Bytes5(i: nat)
    requires 0x100000000 <= i < 0x10000000000
    ensures IntBytes(i) == [ToByte(i / 0x100000000), ToByte(i / 0x1000000), ToByte(i / 0x10000), ToByte(i / 0x100),
      ToByte(i)]
  {
    Bytes4(i / 0x100);
    DivDiv(i, 0x100, 0x100);
    DivDiv(i, 0x100, 0x10000);
    DivDiv(i, 0x100, 0x1000000);
  }

  lemma Bytes6(i: nat)
    requires 0x10000000000 <= i < 0x1000000000000
    ensures IntBytes(i) == [ToByte(i / 0x10000000000), ToByte(i / 0x100000000), ToByte(i / 0x1000000),
      ToByte(i / 0x10000), ToByte(i / 0x100), ToByte(i)]
  {
    Bytes5(i / 0x100);
    DivDiv(i, 0x100, 0x100);
    DivDiv(i, 0x100, 0x10000);
    DivDiv(i, 0x100, 0x1000000);
    DivDiv(i, 0x100, 0x100000000);
  }

  lemma Bytes7(i: nat)
    requires 0x1000000000000 <= i < 0x100000000000000
    ensures IntBytes(i) == [ToByte(i / 0x1000000000000), ToByte(i / 0x10000000000), ToByte(i / 0x100000000),
      ToByte(i / 0x1000000), ToByte(i / 0x10000), ToByte(i / 0x100), ToByte(i)]
  {
    Bytes6(i / 0x100);
    DivDiv(i, 0x100, 0x100);
    DivDiv(i, 0x100, 0x10000);
    DivDiv(i, 0x100, 0x1000000);
    DivDiv(i, 0x100, 0x100000000);
    DivDiv(i, 0x100, 0x10000000000);
  }

  lemma Bytes8(i: nat)
    requires 0x100000000000000 <= i < 0x10000000000000000
    ensures IntBytes(i) == [ToByte(i / 0x100000000000000), ToByte(i / 0x1000000000000), ToByte(i / 0x10000000000),
      ToByte(i / 0x100000000), ToByte(i / 0x1000000), ToByte(i / 0x10000), ToByte(i / 0x100), ToByte(i)]
  {
    Bytes7(i / 0x100);
    DivDiv(i, 0x100, 0x100);
    DivDiv(i, 0x100, 0x10000);
    DivDiv(i, 0x100, 0x1000000);
    DivDiv(i, 0x100, 0x100000000);
    DivDiv(i, 0x100, 0x10000000000);
    DivDiv(i, 0x100, 0x1000000000000);
  }

  /** Writes i big-endian at position off, in the least number of bytes. */
  method PutInt(b: array<Byte>, off: nat, i: nat) returns (size: nat)
    requires i < WORD && off + |IntBytes(i)| <= b.Length
    modifies b
    ensures size == |IntBytes(i)| && b[off..off + size] == IntBytes(i)
    ensures b[..off] == old(b[..off]) && b[off + size..] == old(b[off + size..])
  {
    SizeBytes(i);
    if i < 0x1_0000_0000 {
      size := PutShort(b, off, i);
    } else {
      size := PutLong(b, off, i);
    }
  }

  method PutShort(b: array<Byte>, off: nat, i: nat) returns (size: nat)
    requires 0 <= i < 0x100000000 && off + |IntBytes(i)| <= b.Length
    modifies b
    ensures size == |IntBytes(i)| && forall k :: 0 <= k < size ==> b[off + k] == IntBytes(i)[k]
    ensures forall k :: 0 <= k < off || off + size <= k < b.Length ==> b[k] == old(b[k])
  {
    hide IntBytes;
    hide ToByte;
    if i < 0x100 {
      Bytes1(i);
      b[off] := ToByte(i);
      size := 1;
    } else if i < 0x10000 {
      Bytes2(i);
      b[off] := ToByte(i / 0x100);
      b[off + 1] := ToByte(i);
      size := 2;
    } else if i < 0x1000000 {
      Bytes3(i);
      b[off] := ToByte(i / 0x10000);
      b[off + 1] := ToByte(i / 0x100);
      b[off + 2] := ToByte(i);
      size := 3;
    } else {
      Bytes4(i);
      b[off] := ToByte(i / 0x1000000);
      b[off + 1] := ToByte(i / 0x10000);
      b[off + 2] := ToByte(i / 0x100);
      b[off + 3] := ToByte(i);
      size := 4;
    }
  }

  method PutLong(b: array<Byte>, off: nat, i: nat) returns (size: nat)
    requires 0x100000000 <= i < 0x10000000000000000 && off + |IntBytes(i)| <= b.Length
    modifies b
    ensures size == |IntBytes(i)| && forall k :: 0 <= k < size ==> b[off + k] == IntBytes(i)[k]
    ensures forall k :: 0 <= k < off || off + size <= k < b.Length ==> b[k] == old(b[k])
  {
    hide IntBytes;
    hide ToByte;
    if i < 0x10000000000 {
      Bytes5(i);
      b[off] := ToByte(i / 0x100000000);
      b[off + 1] := ToByte(i / 0x1000000);
      b[off + 2] := ToByte(i / 0x10000);
      b[off + 3] := ToByte(i / 0x100);
      b[off + 4] := ToByte(i);
      size := 5;
    } else if i < 0x1000000000000 {
      Bytes6(i);
      b[off] := ToByte(i / 0x10000000000);
      b[off + 1] := ToByte(i / 0x100000000);
      b[off + 2] := ToByte(i / 0x1000000);
      b[off + 3] := ToByte(i / 0x10000);
      b[off + 4] := ToByte(i / 0x100);
      b[off + 5] := ToByte(i);
      size := 6;
    } else if i < 0x100000000000000 {
      Bytes7(i);
      b[off] := ToByte(i / 0x1000000000000);
      b[off + 1] := ToByte(i / 0x10000000000);
      b[off + 2] := ToByte(i / 0x100000000);
      b[off + 3] := ToByte(i / 0x1000000);
      b[off + 4] := ToByte(i / 0x10000);
      b[off + 5] := ToByte(i / 0x100);
      b[off + 6] := ToByte(i);
      size := 7;
    } else {
      Bytes8(i);
      b[off] := ToByte(i / 0x100000000000000);
      b[off + 1] := ToByte(i / 0x1000000000000);
      b[off + 2] := ToByte(i / 0x10000000000);
      b[off + 3] := ToByte(i / 0x100000000);
      b[off + 4] := ToByte(i / 0x1000000);
      b[off + 5] := ToByte(i / 0x10000);
      b[off + 6] := ToByte(i / 0x100);
      b[off + 7] := ToByte(i);
      size := 8;
    }
  }

  lemma LongHeader(smalltag: Byte, largetag: Byte, size: nat)
    requires 56 <= size < WORD
    ensures Header(smalltag, largetag, size) == [ToByte(largetag + |IntBytes(size)|)] + IntBytes(size)
  {
  }

  /** Writes a string or list header at position off. */
  method PutHead(buf: array<Byte>, off: nat, smalltag: Byte, largetag: Byte, size: nat) returns (n: nat)
    requires size < WORD && off + |Header(smalltag, largetag, size)| <= buf.Length
    modifies buf
    ensures n == |Header(smalltag, largetag, size)| && buf[off..off + n] == Header(smalltag, largetag, size)
    ensures buf[..off] == old(buf[..off]) && buf[off + n..] == old(buf[off + n..])
  {
    if size < 56 {
      buf[off] := ToByte(smalltag + size);
      return 1;
    }
    LongHeader(smalltag, largetag, size);
    hide Header;
    n := PutLongHead(buf, off, largetag, size);
  }

  method PutLongHead(buf: array<Byte>, off: nat, largetag: Byte, size: nat) returns (n: nat)
    requires size < WORD && off + 1 + |IntBytes(size)| <= buf.Length
    modifies buf
    ensures n == 1 + |IntBytes(size)| && buf[off..off + n] == [ToByte(largetag + |IntBytes(size)|)] + IntBytes(size)
    ensures buf[..off] == old(buf[..off]) && buf[off + n..] == old(buf[off + n..])
  {
    hide IntBytes;
    hide ToByte;
    ghost var was, b := buf[..], IntBytes(size);
    var sizesize := PutInt(buf, off + 1, size);
    n := sizesize + 1;
    ghost var now := buf[..];
    assert now == was[..off + 1] + b + was[off + n..];
    var x := ToByte(largetag + sizesize);
    buf[off] := x;
    assert buf[..] == now[off := x];
    Spliced(was, off, x, b, buf[..]);
  }

  lemma Spliced(was: seq<Byte>, off: nat, x: Byte, b: seq<Byte>, now: seq<Byte>)
    requires off + 1 + |b| <= |was|
    requires now == (was[..off + 1] + b + was[off + 1 + |b|..])[off := x]
    ensures now[..off] == was[..off] && now[off..off + 1 + |b|] == [x] + b
    ensures now[off + 1 + |b|..] == was[off + 1 + |b|..]
  {
  }

  // ---------------------------------------------------------------------------------------
  // Strings and headers kept apart
  // ---------------------------------------------------------------------------------------

  /** Where in the string data a list starts, and the size of its content with all inner headers. */
  datatype ListHead = ListHead(offset: nat, size: nat)

  /** The string data of x: its encoding without the list headers. */
  function Strings(x: Item): seq<Byte>
    decreases x
  {
    match x
    case Str(_) => Encode(x)
    case List(xs) => StringsAll(xs)
  }

  function StringsAll(xs: seq<Item>): seq<Byte>
    decreases xs
  {
    if xs == [] then [] else Strings(xs[0]) + StringsAll(xs[1..])
  }

  /** The list headers of x, outermost first, when its string data starts at off. */
  function Heads(x: Item, off: nat): seq<ListHead>
    decreases x
  {
    match x
    case Str(_) => []
    case List(xs) => [ListHead(off, |EncodeAll(xs)|)] + HeadsAll(xs, off)
  }

  function HeadsAll(xs: seq<Item>, off: nat): seq<ListHead>
    decreases xs
  {
    if xs == [] then [] else Heads(xs[0], off) + HeadsAll(xs[1..], off + |Strings(xs[0])|)
  }

  /** The sizes of all list headers of x together. */
  function HeadSizes(x: Item): (n: nat)
    ensures |Encode(x)| == |Strings(x)| + n
    decreases x
  {
    match x
    case Str(_) => 0
    case List(xs) => ListHeader(|EncodeAll(xs)|) + HeadSizesAll(xs)
  }

  function HeadSizesAll(xs: seq<Item>): (n: nat)
    ensures |EncodeAll(xs)| == |StringsAll(xs)| + n
    decreases xs
  {
    if xs == [] then 0 else HeadSizes(xs[0]) + HeadSizesAll(xs[1..])
  }

  function ListHeader(size: nat): nat {
    |Header(0xC0, 0xF7, size)|
  }

  /** Merging: the string data from pos on, with each header at its offset. */
  function Merge(str: seq<Byte>, heads: seq<ListHead>, pos: nat): seq<Byte>
    requires Ordered(heads, pos, |str|)
  {
    if heads == [] then str[pos..]
    else str[pos..heads[0].offset] + Header(0xC0, 0xF7, heads[0].size) + Merge(str, heads[1..], heads[0].offset)
  }

  predicate Ordered(heads: seq<ListHead>, pos: nat, end: nat) {
    if heads == [] then pos <= end
    else pos <= heads[0].offset <= end && heads[0].size < WORD && Ordered(heads[1..], heads[0].offset, end)
  }

  lemma Regroup(a: seq<Byte>, b: seq<Byte>, c: seq<Byte>, d: seq<Byte>)
    ensures (a + b) + c + d == a + (b + c + d)
  {
  }

  lemma Adjacent(s: seq<Byte>, i: nat, j: nat, k: nat)
    requires i <= j <= k <= |s|
    ensures s[i..k] == s[i..j] + s[j..k]
  {
  }

  lemma SplitSlice(s: seq<Byte>, i: nat, a: seq<Byte>, b: seq<Byte>)
    requires i + |a + b| <= |s| && s[i..i + |a + b|] == a + b
    ensures s[i..i + |a|] == a && s[i + |a|..i + |a| + |b|] == b
  {
    assert s[i..i + |a + b|][..|a|] == a;
    assert s[i..i + |a + b|][|a|..] == b;
  }

  /** The string data of x and its headers merge to the encoding of x. */
  lemma {:induction false} MergeItem(str: seq<Byte>, x: Item, off: nat, more: seq<ListHead>)
    requires off + |Strings(x)| <= |str| && str[off..off + |Strings(x)|] == Strings(x)
    requires Ordered(more, off + |Strings(x)|, |str|) && |Encode(x)| < WORD
    ensures Ordered(Heads(x, off) + more, off, |str|)
    ensures Merge(str, Heads(x, off) + more, off) == Encode(x) + Merge(str, more, off + |Strings(x)|)
    decreases x
  {
    hide Header;
    hide Merge;
    match x
    case Str(_) =>
      assert Heads(x, off) + more == more;
      MergeSkip(str, more, off, off + |Strings(x)|);
    case List(xs) =>
      MergeItems(str, xs, off, more);
      var h := ListHead(off, |EncodeAll(xs)|);
      assert Heads(x, off) + more == [h] + (HeadsAll(xs, off) + more);
      MergeHead(str, h, HeadsAll(xs, off) + more);
  }

  lemma MergeHead(str: seq<Byte>, h: ListHead, more: seq<ListHead>)
    requires Ordered(more, h.offset, |str|) && h.size < WORD
    ensures Ordered([h] + more, h.offset, |str|)
    ensures Merge(str, [h] + more, h.offset) == Header(0xC0, 0xF7, h.size) + Merge(str, more, h.offset)
  {
    hide Header;
    OrderedBounds(more, h.offset, |str|);
    assert ([h] + more)[1..] == more;
    assert str[h.offset..h.offset] == [];
    var rest := Header(0xC0, 0xF7, h.size) + Merge(str, more, h.offset);
    assert [] + rest == rest;
  }

  lemma {:induction false} OrderedBounds(heads: seq<ListHead>, pos: nat, end: nat)
    requires Ordered(heads, pos, end)
    ensures pos <= end
  {
  }

  lemma FirstOfItems(xs: seq<Item>, off: nat)
    requires xs != []
    ensures EncodeAll(xs) == Encode(xs[0]) + EncodeAll(xs[1..])
    ensures StringsAll(xs) == Strings(xs[0]) + StringsAll(xs[1..])
    ensures HeadsAll(xs, off) == Heads(xs[0], off) + HeadsAll(xs[1..], off + |Strings(xs[0])|)
  {
  }

  lemma {:induction false} MergeItems(str: seq<Byte>, xs: seq<Item>, off: nat, more: seq<ListHead>)
    requires off + |StringsAll(xs)| <= |str| && str[off..off + |StringsAll(xs)|] == StringsAll(xs)
    requires Ordered(more, off + |StringsAll(xs)|, |str|) && |EncodeAll(xs)| < WORD
    ensures Ordered(HeadsAll(xs, off) + more, off, |str|)
    ensures Merge(str, HeadsAll(xs, off) + more, off) == EncodeAll(xs) + Merge(str, more, off + |StringsAll(xs)|)
    decreases xs
  {
    hide Encode;
    hide Strings;
    hide Heads;
    hide Merge;
    hide Ordered;
    if xs == [] {
      assert HeadsAll(xs, off) + more == more;
      assert EncodeAll(xs) + Merge(str, more, off) == Merge(str, more, off);
    } else {
      var s, n := Strings(xs[0]), off + |Strings(xs[0])|;
      var rest := StringsAll(xs[1..]);
      FirstOfItems(xs, off);
      hide EncodeAll;
      hide StringsAll;
      hide HeadsAll;
      SplitSlice(str, off, s, rest);
      MergeItems(str, xs[1..], n, more);
      MergeItem(str, xs[0], off, HeadsAll(xs[1..], n) + more);
      Associate(Heads(xs[0], off), HeadsAll(xs[1..], n), more);
      Associate(Encode(xs[0]), EncodeAll(xs[1..]), Merge(str, more, n + |rest|));
    }
  }

  lemma MergeSkip(str: seq<Byte>, heads: seq<ListHead>, pos: nat, next: nat)
    requires pos <= next <= |str| && Ordered(heads, next, |str|)
    ensures Ordered(heads, pos, |str|)
    ensures Merge(str, heads, pos) == str[pos..next] + Merge(str, heads, next)
  {
    hide Header;
    if heads == [] {
      assert str[pos..] == str[pos..next] + str[next..];
    } else {
      var at := heads[0].offset;
      var h, rest := Header(0xC0, 0xF7, heads[0].size), Merge(str, heads[1..], at);
      hide Merge;
      Adjacent(str, pos, next, at);
      Regroup(str[pos..next], str[next..at], h, rest);
    }
  }

  /** What the recursive functions give for the items from i on. */
  lemma Rest(xs: seq<Item>, i: nat, off: nat)
    requires i <= |xs|
    ensures i == |xs| ==> xs[i..] == [] && EncodeAll(xs[i..]) == StringsAll(xs[i..]) == []
    ensures i == |xs| ==> HeadsAll(xs[i..], off) == [] && HeadSizesAll(xs[i..]) == 0
    ensures i < |xs| ==> EncodeAll(xs[i..]) == Encode(xs[i]) + EncodeAll(xs[i + 1..])
    ensures i < |xs| ==> StringsAll(xs[i..]) == Strings(xs[i]) + StringsAll(xs[i + 1..])
    ensures i < |xs| ==> HeadsAll(xs[i..], off) == Heads(xs[i], off) + HeadsAll(xs[i + 1..], off + |Strings(xs[i])|)
    ensures i < |xs| ==> HeadSizesAll(xs[i..]) == HeadSizes(xs[i]) + HeadSizesAll(xs[i + 1..])
  {
    if i < |xs| {
      assert xs[i..][1..] == xs[i + 1..];
    }
  }

  // ---------------------------------------------------------------------------------------
  // The buffer
  // ---------------------------------------------------------------------------------------

  class EncBuf {
    var str: seq<Byte>
    var lheads: seq<ListHead>
    var lhsize: nat           // what the headers will take when they are merged in
    const sizebuf: array<Byte>

    constructor ()
      ensures str == [] && lheads == [] && lhsize == 0 && fresh(sizebuf) && sizebuf.Length == 9
    {
      str, lheads, lhsize := [], [], 0;
      sizebuf := new Byte[9];
    }

    method Reset()
      modifies this
      ensures str == [] && lheads == [] && lhsize == 0
    {
      str, lheads, lhsize := [], [], 0;
    }

    function Size(): nat
      reads this
    {
      |str| + lhsize
    }

    method EncodeStringHeader(size: nat)
      requires sizebuf.Length == 9 && size < WORD
      modifies this, sizebuf
      ensures str == old(str) + Header(0x80, 0xB7, size) && lheads == old(lheads) && lhsize == old(lhsize)
    {
      if size < 56 {
        str := str + [ToByte(0x80 + size)];
      } else {
        SizeBytes(size);
        var sizesize := PutInt(sizebuf, 1, size);
        sizebuf[0] := ToByte(0xB7 + sizesize);
        assert sizebuf[1..1 + sizesize] == IntBytes(size);
        str := str + sizebuf[..sizesize + 1];
      }
    }

    method EncodeString(b: seq<Byte>)
      requires sizebuf.Length == 9 && |b| < WORD
      modifies this, sizebuf
      ensures str == old(str) + Encode(Str(b)) && lheads == old(lheads) && lhsize == old(lhsize)
    {
      if |b| == 1 && b[0] <= 0x7F {
        str := str + [b[0]];
      } else {
        EncodeStringHeader(|b|);
        str := str + b;
      }
    }

    /** Starts a list; the header's final size is not known yet. */
    method List() returns (lh: nat)
      modifies this
      ensures str == old(str) && lhsize == old(lhsize)
      ensures lh == |old(lheads)| && lheads == old(lheads) + [ListHead(|str|, lhsize)]
    {
      lh := |lheads|;
      lheads := lheads + [ListHead(|str|, lhsize)];
    }

    /** Ends a list: its size is what was added since List, both strings and inner headers. */
    method ListEnd(lh: nat)
      requires lh < |lheads| && lheads[lh].offset + lheads[lh].size <= Size()
      modifies this
      ensures str == old(str)
      ensures var size := old(Size() - lheads[lh].offset - lheads[lh].size);
              lheads == old(lheads)[lh := ListHead(old(lheads[lh].offset), size)] &&
              lhsize == old(lhsize) + ListHeader(size)
    {
      var size := Size() - lheads[lh].offset - lheads[lh].size;
      lheads := lheads[lh := lheads[lh].(size := size)];
      var n := 1;
      if size >= 56 {
        var s := IntSize(size);
        n := 1 + s;
      }
      lhsize := lhsize + n;
    }

    /** Appends one value: a string, or a list with its header left for later. */
    method EncodeItem(x: Item)
      requires sizebuf.Length == 9 && |Encode(x)| < WORD
      modifies this, sizebuf
      ensures str == old(str) + Strings(x)
      ensures lheads == old(lheads) + Heads(x, |old(str)|)
      ensures lhsize == old(lhsize) + HeadSizes(x)
      decreases x
    {
      match x
      case Str(b) =>
        EncodeString(b);
      case List(xs) =>
        var lh := List();
        EncodeItems(xs);
        ListEnd(lh);
    }

    /** Appends an unsigned integer: nothing but the tag for zero, a small value as its own byte. */
    method WriteUint(i: nat)
      requires sizebuf.Length == 9 && i < WORD
      modifies this, sizebuf
      ensures str == old(str) + Encode(UintItem(i)) && lheads == old(lheads) && lhsize == old(lhsize)
    {
      if i == 0 {
        str := str + [0x80];
      } else if i < 128 {
        str := str + [ToByte(i)];
      } else {
        SizeBytes(i);
        var s := PutInt(sizebuf, 1, i);
        sizebuf[0] := ToByte(0x80 + s);
        assert sizebuf[1..1 + s] == IntBytes(i);
        str := str + sizebuf[..s + 1];
        assert sizebuf[..s + 1] == [ToByte(0x80 + s)] + IntBytes(i);
      }
    }

    method EncodeItems(xs: seq<Item>)
      requires sizebuf.Length == 9 && |EncodeAll(xs)| < WORD
      modifies this, sizebuf
      ensures str == old(str) + StringsAll(xs)
      ensures lheads == old(lheads) + HeadsAll(xs, |old(str)|)
      ensures lhsize == old(lhsize) + HeadSizesAll(xs)
      decreases xs
    {
      hide Encode;
      hide EncodeAll;
      hide Strings;
      hide StringsAll;
      hide Heads;
      hide HeadsAll;
      hide HeadSizes;
      hide HeadSizesAll;
      assert xs[0..] == xs;
      var i := 0;
      while i < |xs|
        invariant 0 <= i <= |xs| && |EncodeAll(xs[i..])| < WORD
        invariant str + StringsAll(xs[i..]) == old(str) + StringsAll(xs)
        invariant lheads + HeadsAll(xs[i..], |str|) == old(lheads) + HeadsAll(xs, |old(str)|)
        invariant lhsize + HeadSizesAll(xs[i..]) == old(lhsize) + HeadSizesAll(xs)
      {
        Rest(xs, i, |str|);
        Associate(str, Strings(xs[i]), StringsAll(xs[i + 1..]));
        Associate(lheads, Heads(xs[i], |str|), HeadsAll(xs[i + 1..], |str| + |Strings(xs[i])|));
        EncodeItem(xs[i]);
        i := i + 1;
      }
      Rest(xs, i, |str|);
    }

    /** The encoded bytes: string data with the headers merged in. */
    method ToBytes() returns (out: array<Byte>)
      requires Ordered(lheads, 0, |str|) && Size() == |Merge(str, lheads, 0)|
      ensures fresh(out) && out[..] == Merge(str, lheads, 0)
    {
      hide Header;
      hide Merge;
      hide Ordered;
      ghost var all := Merge(str, lheads, 0);
      out := new Byte[Size()];
      var strpos: nat, pos: nat := 0, 0;
      var i := 0;
      assert out[..pos] == [];
      NothingBefore(all);
      assert lheads[0..] == lheads;
      while i < |lheads|
        invariant 0 <= i <= |lheads| && pos <= out.Length && strpos <= |str|
        invariant Ordered(lheads[i..], strpos, |str|)
        invariant out[..pos] + Merge(str, lheads[i..], strpos) == all
      {
        var head := lheads[i];
        TailOf(lheads, i);
        OrderedNext(lheads[i..], strpos, |str|);
        pos := CopyPart(out, pos, str, head, lheads[i..], strpos);
        strpos := head.offset;
        i := i + 1;
      }
      MergeNone(str, lheads[i..], strpos);
      ghost var done := out[..pos];
      var n := Copy(out, pos, str[strpos..]);
      assert out[..] == done + str[strpos..];
    }
  }

  lemma NothingBefore(s: seq<Byte>)
    ensures [] + s == s
  {
  }

  lemma TailOf(heads: seq<ListHead>, i: nat)
    requires i < |heads|
    ensures heads[i..][1..] == heads[i + 1..] && heads[i..][0] == heads[i]
  {
  }

  lemma OrderedNext(heads: seq<ListHead>, pos: nat, end: nat)
    requires heads != [] && Ordered(heads, pos, end)
    ensures heads[0].offset <= end && Ordered(heads[1..], heads[0].offset, end)
  {
  }

  lemma MergeNone(str: seq<Byte>, heads: seq<ListHead>, pos: nat)
    requires heads == [] && Ordered(heads, pos, |str|)
    ensures pos <= |str| && Merge(str, heads, pos) == str[pos..]
  {
  }

  /** One turn of ToBytes: the strings before a header and the header. */
  method CopyPart(out: array<Byte>, pos: nat, str: seq<Byte>, head: ListHead, ghost heads: seq<ListHead>, strpos: nat)
    returns (pos': nat)
    requires heads != [] && heads[0] == head && Ordered(heads, strpos, |str|)
    requires pos + |Merge(str, heads, strpos)| == out.Length
    modifies out
    ensures pos <= pos' <= out.Length
    ensures out[..pos'] + Merge(str, heads[1..], head.offset) == old(out[..pos]) + Merge(str, heads, strpos)
  {
    hide Header;
    ghost var rest := Merge(str, heads[1..], head.offset);
    ghost var s, h := str[strpos..head.offset], Header(0xC0, 0xF7, head.size);
    assert Merge(str, heads, strpos) == s + h + rest;
    hide Merge;
    ghost var before := out[..pos];
    var n := Copy(out, pos, str[strpos..head.offset]);
    pos' := pos + n;
    Adjacent(out[..], 0, pos, pos');
    assert out[..pos'] == before + s;
    n := PutHead(out, pos', 0xC0, 0xF7, head.size);
    Adjacent(out[..], 0, pos', pos' + n);
    pos' := pos' + n;
    assert out[..pos'] == before + s + h;
    Regroup(before, s, h, rest);
  }

  /** The encoding of one item, from an empty buffer. */
  method EncodeToBytes(x: Item) returns (out: array<Byte>)
    requires |Encode(x)| < WORD
    ensures out[..] == Encode(x)
  {
    var eb := new EncBuf();
    eb.EncodeItem(x);
    MergedFromEmpty(x);
    out := eb.ToBytes();
  }

  lemma MergedFromEmpty(x: Item)
    requires |Encode(x)| < WORD
    ensures [] + Strings(x) == Strings(x) && [] + Heads(x, 0) == Heads(x, 0)
    ensures Ordered(Heads(x, 0), 0, |Strings(x)|) && Merge(Strings(x), Heads(x, 0), 0) == Encode(x)
  {
    MergeItem(Strings(x), x, 0, []);
    assert Heads(x, 0) + [] == Heads(x, 0);
    assert Strings(x)[|Strings(x)|..] == [];
    assert Encode(x) + [] == Encode(x);
  }

  // ---------------------------------------------------------------------------------------
  // Writing out piece by piece
  // ---------------------------------------------------------------------------------------

  /** A writer that takes what it has room for, and reports an error when that is less than it was given. */
  class Writer {
    var data: seq<Byte>
    var room: nat

    constructor (room: nat)
      ensures data == [] && this.room == room
    {
      data, this.room := [], room;
    }

    method Write(b: seq<Byte>) returns (n: nat, failed: bool)
      modifies this
      ensures n == (if |b| <= old(room) then |b| else old(room)) && failed == (n < |b|)
      ensures data == old(data) + b[..n] && room == old(room) - n
    {
      n := if |b| <= room then |b| else room;
      failed := n < |b|;
      data := data + b[..n];
      room := room - n;
    }
  }

  /** What is written, whether or not the writer fails in between: all of b, or a part that leaves no room. */
  predicate Delivered(data: seq<Byte>, room: nat, start: seq<Byte>, space: nat, b: seq<Byte>, failed: bool) {
    if failed then |b| > space && data == start + b[..space]
    else |b| <= space && data == start + b && room == space - |b|
  }

  /** The merged bytes in as many writes as there are pieces. */
  method ToWriter(eb: EncBuf, out: Writer) returns (failed: bool)
    requires eb.sizebuf.Length == 9 && Ordered(eb.lheads, 0, |eb.str|)
    modifies out, eb.sizebuf
    ensures Delivered(out.data, out.room, old(out.data), old(out.room), old(Merge(eb.str, eb.lheads, 0)), failed)
  {
    hide Header;
    var str, lheads := eb.str, eb.lheads;
    ghost var start, space, all := out.data, out.room, Merge(str, lheads, 0);
    var strpos: nat := 0;
    var i := 0;
    while i < |lheads|
      invariant 0 <= i <= |lheads| && strpos <= |str| && Ordered(lheads[i..], strpos, |str|)
      invariant out.data + Merge(str, lheads[i..], strpos) == start + all
      invariant |out.data| - |start| + out.room == space
    {
      var head := lheads[i];
      assert lheads[i..][1..] == lheads[i + 1..];
      failed := WritePart(out, str, head, lheads[i..], strpos, eb.sizebuf);
      if failed {
        FailedPrefix(out.data, start, space, all);
        return;
      }
      strpos := head.offset;
      i := i + 1;
    }
    failed := false;
    if strpos < |str| {
      var n;
      n, failed := out.Write(str[strpos..]);
      if failed {
        FailedPrefix(out.data, start, space, all);
      }
    }
  }

  lemma FailedPrefix(data: seq<Byte>, start: seq<Byte>, space: nat, all: seq<Byte>)
    requires data < start + all && |data| == |start| + space
    ensures |all| > space && data == start + all[..space]
  {
    assert data == (start + all)[..|data|];
  }

  /** One turn of ToWriter: the strings before a header, if any, and the header. */
  method WritePart(out: Writer, str: seq<Byte>, head: ListHead, ghost heads: seq<ListHead>, strpos: nat,
      sizebuf: array<Byte>) returns (failed: bool)
    requires heads != [] && heads[0] == head && Ordered(heads, strpos, |str|) && sizebuf.Length == 9
    modifies out, sizebuf
    ensures |out.data| + out.room == |old(out.data)| + old(out.room)
    ensures !failed ==> out.data + Merge(str, heads[1..], head.offset) == old(out.data) + Merge(str, heads, strpos)
    ensures failed ==> out.room == 0 && out.data < old(out.data) + Merge(str, heads, strpos)
  {
    ghost var rest := Merge(str, heads[1..], head.offset);
    ghost var s, h := str[strpos..head.offset], Header(0xC0, 0xF7, head.size);
    assert Merge(str, heads, strpos) == s + h + rest;
    HeaderSize(head.size);
    hide Merge;
    hide Header;
    ghost var before := out.data;
    if head.offset - strpos > 0 {
      var n;
      n, failed := out.Write(str[strpos..head.offset]);
      if failed {
        Proper(before, s, h + rest, n);
        Associate(s, h, rest);
        return;
      }
    }
    assert out.data == before + s;
    var size := PutHead(sizebuf, 0, 0xC0, 0xF7, head.size);
    assert sizebuf[..size] == h;
    var n;
    n, failed := out.Write(sizebuf[..size]);
    if failed {
      Proper(before + s, h, rest, n);
      Regroup(before, s, h, rest);
    } else {
      Regroup(before, s, h, rest);
    }
  }

  lemma HeaderSize(size: nat)
    requires size < WORD
    ensures |Header(0xC0, 0xF7, size)| <= 9
  {
    SizeBytes(size);
  }

  lemma Proper(a: seq<Byte>, b: seq<Byte>, c: seq<Byte>, n: nat)
    requires n < |b|
    ensures a + b[..n] < a + (b + c) && a + b[..n] < a + b + c
  {
    assert a + (b + c) == a + b[..n] + (b[n..] + c);
  }

  /** `copy(out[pos:], s)` where s fits. */
  method Copy(out: array<Byte>, pos: nat, s: seq<Byte>) returns (n: nat)
    requires pos + |s| <= out.Length
    modifies out
    ensures n == |s| && out[pos..pos + n] == s
    ensures out[..pos] == old(out[..pos]) && out[pos + n..] == old(out[pos + n..])
  {
    forall i | 0 <= i < |s| {
      out[pos + i] := s[i];
    }
    n := |s|;
  }

  // ---------------------------------------------------------------------------------------
  // Reading out with buffers of any size
  // ---------------------------------------------------------------------------------------

  lemma NextHead(str: seq<Byte>, heads: seq<ListHead>, i: nat, pos: nat)
    requires i < |heads| && Ordered(heads[i..], pos, |str|)
    ensures pos <= heads[i].offset <= |str| && heads[i].size < WORD
    ensures Ordered(heads[i..], heads[i].offset, |str|)
    ensures Merge(str, heads[i..], pos) == str[pos..heads[i].offset] + Merge(str, heads[i..], heads[i].offset)
    ensures Ordered(heads[i + 1..], heads[i].offset, |str|)
    ensures Merge(str, heads[i..], heads[i].offset)
         == Header(0xC0, 0xF7, heads[i].size) + Merge(str, heads[i + 1..], heads[i].offset)
  {
    hide Header;
    var rest := heads[i..];
    assert rest[1..] == heads[i + 1..];
    MergeHead(str, heads[i], rest[1..]);
    assert [heads[i]] + rest[1..] == rest;
    MergeSkip(str, rest, pos, heads[i].offset);
  }

  lemma MergeEnd(str: seq<Byte>, heads: seq<ListHead>, i: nat, pos: nat)
    requires i == |heads| && Ordered(heads[i..], pos, |str|)
    ensures pos <= |str| && Merge(str, heads[i..], pos) == str[pos..]
    ensures Ordered(heads[i..], |str|, |str|) && Merge(str, heads[i..], |str|) == []
  {
    assert heads[i..] == [];
  }

  lemma CutPiece(all: seq<Byte>, done: seq<Byte>, p: seq<Byte>, n: nat, rest: seq<Byte>)
    requires n <= |p| && all == done + (p + rest)
    ensures all == (done + p[..n]) + (p[n..] + rest)
  {
    assert p == p[..n] + p[n..];
  }

  lemma Taken(all: seq<Byte>, done: seq<Byte>, rest: seq<Byte>)
    requires all == done + rest
    ensures done == all[..|done|] && rest == all[|done|..]
  {
  }

  class EncReader {
    var buf: EncBuf?             // given up at the end
    var lhpos: nat               // headers and string data up to here have been turned into pieces
    var strpos: nat
    var piece: Option<seq<Byte>> // what is left of a piece that did not fit

    constructor (eb: EncBuf)
      requires eb.sizebuf.Length == 9 && Ordered(eb.lheads, 0, |eb.str|)
      ensures Valid() && buf == eb && Remaining() == Merge(eb.str, eb.lheads, 0)
    {
      buf, lhpos, strpos, piece := eb, 0, 0, None;
      new;
      assert eb.lheads[0..] == eb.lheads;
    }

    ghost predicate Valid()
      reads this, buf
    {
      && (piece.Some? ==> piece.value != [])
      && (buf == null ==> piece.None?)
      && (buf != null ==> buf.sizebuf.Length == 9 && lhpos <= |buf.lheads| &&
                          Ordered(buf.lheads[lhpos..], strpos, |buf.str|))
    }

    /** The bytes that are still to come. */
    ghost function Remaining(): seq<Byte>
      requires Valid()
      reads this, buf
    {
      if buf == null then [] else Piece() + Merge(buf.str, buf.lheads[lhpos..], strpos)
    }

    ghost function Piece(): seq<Byte>
      reads this
    {
      if piece.Some? then piece.value else []
    }

    /** The next piece: what is left of the last one, the strings before the next header, a header, the rest. */
    method Next() returns (p: Option<seq<Byte>>)
      requires Valid()
      modifies this`lhpos, this`strpos, if buf != null then {buf.sizebuf} else {}
      ensures lhpos >= old(lhpos) && strpos >= old(strpos)
      ensures p.None? ==> old(Remaining()) == []
      ensures p.Some? ==> p.value != [] && buf != null && lhpos <= |buf.lheads| &&
                          Ordered(buf.lheads[lhpos..], strpos, |buf.str|) &&
                          p.value + Merge(buf.str, buf.lheads[lhpos..], strpos) == old(Remaining())
    {
      hide Merge;
      hide Header;
      hide Ordered;
      if buf == null {
        return None;
      } else if piece.Some? {
        return piece;
      } else if lhpos < |buf.lheads| {
        var head := buf.lheads[lhpos];
        NextHead(buf.str, buf.lheads, lhpos, strpos);
        if head.offset - strpos > 0 {
          var s := buf.str[strpos..head.offset];
          strpos := head.offset;
          return Some(s);
        }
        lhpos := lhpos + 1;
        HeaderSize(head.size);
        var size := PutHead(buf.sizebuf, 0, 0xC0, 0xF7, head.size);
        assert buf.sizebuf[..size] == buf.sizebuf[0..size];
        return Some(buf.sizebuf[..size]);
      } else {
        MergeEnd(buf.str, buf.lheads, lhpos, strpos);
        if strpos < |buf.str| {
          var s := buf.str[strpos..];
          strpos := |buf.str|;
          return Some(s);
        }
        return None;
      }
    }

    /**
      Fills b with the next bytes and reports EOF when no more are left. Any sequence of calls delivers the
      merged bytes in order.
    */
    method Read(b: array<Byte>) returns (n: nat, eof: bool)
      requires Valid() && (buf != null ==> b != buf.sizebuf)
      modifies this, b, if buf != null then {buf.sizebuf} else {}
      ensures Valid()
      ensures n == if |old(Remaining())| <= b.Length then |old(Remaining())| else b.Length
      ensures b[..n] == old(Remaining())[..n] && b[n..] == old(b[n..])
      ensures Remaining() == old(Remaining())[n..]
      ensures eof <==> |old(Remaining())| <= b.Length
    {
      ghost var all, was := Remaining(), b[..];
      hide Remaining;
      n, eof := 0, false;
      var done := false;
      while !done
        invariant n <= b.Length && Valid() && (buf != null ==> buf == old(buf))
        invariant b[..n] + Remaining() == all && b[n..] == was[n..]
        invariant done ==> eof == (Remaining() == []) && (eof || n == b.Length)
        decreases !done, |Remaining()|
      {
        n, done, eof := ReadPiece(b, n, all, was);
      }
      Taken(all, b[..n], Remaining());
    }

    /** One turn of Read: the next piece, or as much of it as there is room for behind position n. */
    method ReadPiece(b: array<Byte>, n: nat, ghost all: seq<Byte>, ghost was: seq<Byte>)
      returns (n': nat, done: bool, eof: bool)
      requires Valid() && (buf != null ==> b != buf.sizebuf)
      requires n <= b.Length == |was| && b[..n] + Remaining() == all && b[n..] == was[n..]
      modifies this, b, if buf != null then {buf.sizebuf} else {}
      ensures n' <= b.Length && Valid() && (buf != null ==> buf == old(buf))
      ensures b[..n'] + Remaining() == all && b[n'..] == was[n'..]
      ensures done ==> eof == (Remaining() == []) && (eof || n' == b.Length)
      ensures !done ==> |Remaining()| < |old(Remaining())|
    {
      hide Merge;
      hide Ordered;
      hide Header;
      hide Remaining;
      var p := Next();
      if p.None? {
        piece := None;
        buf := null;
        Ended();
        return n, true, true;
      }
      ghost var later := Merge(buf.str, buf.lheads[lhpos..], strpos);
      var nn := CopyPiece(b, n, p.value, all, was, later);
      n' := n + nn;
      done := nn < |p.value|;
      piece := if done then Some(p.value[nn..]) else None;
      Holding(p.value[nn..], later);
      eof := false;
    }

    lemma Ended()
      requires buf == null && piece.None?
      ensures Valid() && Remaining() == []
    {
    }

    lemma Holding(v: seq<Byte>, later: seq<Byte>)
      requires Valid() && buf != null && piece == (if v == [] then None else Some(v))
      requires later == Merge(buf.str, buf.lheads[lhpos..], strpos)
      ensures Remaining() == v + later
    {
      hide Merge;
      hide Ordered;
    }
  }

  /** Copies as much of a piece as there is room for behind position n. */
  method CopyPiece(b: array<Byte>, n: nat, p: seq<Byte>, ghost all: seq<Byte>, ghost was: seq<Byte>,
    ghost later: seq<Byte>)
    returns (nn: nat)
    requires n <= b.Length == |was| && b[..n] + (p + later) == all && b[n..] == was[n..]
    modifies b
    ensures nn == if |p| <= b.Length - n then |p| else b.Length - n
    ensures b[..n + nn] + (p[nn..] + later) == all && b[n + nn..] == was[n + nn..]
  {
    nn := if |p| <= b.Length - n then |p| else b.Length - n;
    CutPiece(all, b[..n], p, nn, later);
    ghost var before := b[..n];
    var m := Copy(b, n, p[..nn]);
    assert b[..n + nn] == before + p[..nn];
  }

  /** A reader of the encoding of x, and its total size. */
  method EncodeToReader(x: Item) returns (size: nat, r: EncReader)
    requires |Encode(x)| < WORD
    ensures size == |Encode(x)| && r.Valid() && r.Remaining() == Encode(x)
  {
    var eb := new EncBuf();
    eb.EncodeItem(x);
    MergedFromEmpty(x);
    size := eb.Size();
    r := new EncReader(eb);
  }

  /** Writes the encoding of x. */
  method EncodeTo(w: Writer, x: Item) returns (failed: bool)
    requires |Encode(x)| < WORD
    modifies w
    ensures Delivered(w.data, w.room, old(w.data), old(w.room), Encode(x), failed)
  {
    var eb := new EncBuf();
    eb.EncodeItem(x);
    MergedFromEmpty(x);
    failed := ToWriter(eb, w);
  }
}
