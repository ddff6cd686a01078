/**
  The streaming RLP decoder (decode.go): a reader with a stack of list positions, whose calls keep every
  list inside the one around it, and which decodes exactly what the specification parses.
*/
module RlpDecode {
  import opened BigEndians
  import opened Bits
  import opened Results
  import opened Rlp
  import RlpEncode

  datatype Error =
    | EOF | UnexpectedEOF | EOL | ExpectedString | ExpectedList | CanonInt | CanonSize | ElemTooLarge | ValueTooLarge
    | MoreThanOneValue | UintOverflow | NotInList | NotAtEOL

  /** The header bytes of a value; a small byte is its own header. */
  function HeaderOf(kind: Kind, size: nat, byteval: Byte): seq<Byte> {
    match kind
    case ByteKind => [byteval]
    case StringKind => Header(0x80, 0xB7, size)
    case ListKind => Header(0xC0, 0xF7, size)
  }

  predicate HeadValues(kind: Kind, size: nat, byteval: Byte) {
    size < WORD && (kind == ByteKind ==> size == 0 && byteval < 0x80)
  }

  /** The head in the terms of the specification, where a small byte counts as content. */
  function HeadOf(kind: Kind, size: nat): Head {
    match kind
    case ByteKind => Head(ByteKind, 0, 1)
    case StringKind => Head(StringKind, |Header(0x80, 0xB7, size)|, size)
    case ListKind => Head(ListKind, |Header(0xC0, 0xF7, size)|, size)
  }

  lemma HeadAhead(kind: Kind, size: nat, byteval: Byte, rest: seq<Byte>)
    requires HeadValues(kind, size, byteval)
    ensures ParseHead(HeaderOf(kind, size, byteval) + rest) == Ok(HeadOf(kind, size))
  {
    match kind
    case ByteKind =>
    case StringKind => ParseHeader(0x80, 0xB7, StringKind, size, rest);
    case ListKind => ParseHeader(0xC0, 0xF7, ListKind, size, rest);
  }

  /** What the tag byte says about a value. */
  lemma TagByte(b: seq<Byte>, t: Byte, rest: seq<Byte>)
    requires b == [t] + rest
    ensures b[1..] == rest
    ensures t < 0x80 ==> ParseHead(b) == Ok(HeadOf(ByteKind, 0)) && HeaderOf(ByteKind, 0, t) == [t]
    ensures 0x80 <= t < 0xB8 ==>
      ParseHead(b) == Ok(HeadOf(StringKind, t - 0x80)) && HeaderOf(StringKind, t - 0x80, 0) == [t]
    ensures 0xB8 <= t < 0xC0 ==> ParseHead(b) == LongHead(StringKind, b, t - 0xB7)
    ensures 0xC0 <= t < 0xF8 ==>
      ParseHead(b) == Ok(HeadOf(ListKind, t - 0xC0)) && HeaderOf(ListKind, t - 0xC0, 0) == [t]
    ensures 0xF8 <= t ==> ParseHead(b) == LongHead(ListKind, b, t - 0xF7)
  {
    assert b[0] == t;
  }

  lemma LongHeader(kind: Kind, b: seq<Byte>, n: nat, size: nat)
    requires b != [] && 0 < n <= 8 && size >= 56 && |IntBytes(size)| == n && ParseSize(b[1..], n) == Ok(size)
    requires (kind == StringKind && At(b, 0) == 0xB7 + n) || (kind == ListKind && At(b, 0) == 0xF7 + n)
    ensures LongHead(kind, b, n) == Ok(HeadOf(kind, size)) && HeaderOf(kind, size, 0) == [b[0]] + IntBytes(size)
  {
  }

  /** A header with its content behind it is a value, but for a single small byte that has a header. */
  lemma ValueAhead(v: seq<Byte>, kind: Kind, size: nat, byteval: Byte, c: seq<Byte>, rest: seq<Byte>)
    requires HeadValues(kind, size, byteval) && |c| == size && v == HeaderOf(kind, size, byteval) + c + rest
    ensures if kind == StringKind && size == 1 && c[0] < 0x80 then ParseValue(v).Err?
            else ParseValue(v) == Ok(HeadOf(kind, size)) && ValueLength(v) == |HeaderOf(kind, size, byteval)| + size &&
                 Content(v, HeadOf(kind, size)) == if kind == ByteKind then [byteval] else c
  {
    var h := HeaderOf(kind, size, byteval);
    assert v == h + (c + rest);
    HeadAhead(kind, size, byteval, c + rest);
    hide Header;
    hide ParseHead;
    assert kind != ByteKind ==> v[|h|..|h| + size] == c;
  }

  lemma StringRead(v: seq<Byte>, h: seq<Byte>, size: nat, byteval: Byte, c: seq<Byte>, rest: seq<Byte>)
    requires HeadValues(StringKind, size, byteval) && |c| == size && h == HeaderOf(StringKind, size, byteval)
    requires v == h + (c + rest)
    ensures |h| <= |h| + size <= |v| && v[|h|..|h| + size] == c && v[|h| + size..] == rest
    ensures if size == 1 && c[0] < 0x80 then ParseValue(v).Err?
            else IsString(v) && ValueLength(v) == |h| + size && Content(v, ParseValue(v).value) == c
  {
    hide Header;
    hide HeaderOf;
    assert v == h + c + rest;
    ValueAhead(v, StringKind, size, byteval, c, rest);
  }

  lemma ByteRead(v: seq<Byte>, h: seq<Byte>, byteval: Byte, rest: seq<Byte>)
    requires HeadValues(ByteKind, 0, byteval) && h == HeaderOf(ByteKind, 0, byteval) && v == h + rest
    ensures v[|h|..|h|] == [] && v[|h|..] == rest
    ensures IsString(v) && ValueLength(v) == |h| && Content(v, ParseValue(v).value) == [byteval]
  {
    assert v == h + [] + rest;
    ValueAhead(v, ByteKind, 0, byteval, [], rest);
  }

  /** Content that is not all there. */
  lemma ValueMissing(v: seq<Byte>, kind: Kind, size: nat, byteval: Byte, rest: seq<Byte>)
    requires HeadValues(kind, size, byteval) && |rest| < size && v == HeaderOf(kind, size, byteval) + rest
    ensures WholeLength(v).Err? && ParseValue(v).Err?
  {
    HeadAhead(kind, size, byteval, rest);
    hide Header;
    hide ParseHead;
  }

  lemma NothingAhead()
    ensures ParseHead([]).Err? && WholeLength([]).Err? && ParseValue([]).Err?
  {
  }

  lemma NoHead(v: seq<Byte>)
    requires ParseHead(v).Err?
    ensures WholeLength(v).Err? && ParseValue(v).Err?
  {
  }

  /** A string, or a small byte, is at the start of b. */
  predicate IsString(b: seq<Byte>) {
    ParseValue(b).Ok? && ParseValue(b).value.kind != ListKind
  }

  function ValueLength(b: seq<Byte>): nat
    requires ParseValue(b).Ok?
  {
    ParseValue(b).value.length + ParseValue(b).value.size
  }

  /** Errors of a read that asks for more than is there, or than there is room for. */
  predicate IsReadError(e: Error) {
    e == UnexpectedEOF || e == ElemTooLarge || e == ValueTooLarge
  }

  datatype Outcome<T> = Done(value: T) | Failed(error: Error)

  /** A list that has been entered: how much of its content was read, and its size. */
  datatype ListPos = ListPos(pos: nat, size: nat)

  // ---------------------------------------------------------------------------------------
  // The stack
  // ---------------------------------------------------------------------------------------

  /** Every position is within its list, and every open list within what is left of the one around it. */
  ghost predicate Frames(stack: seq<ListPos>) {
    && (forall k :: 0 <= k < |stack| ==> stack[k].pos <= stack[k].size)
    && (forall k :: 0 < k < |stack| ==> stack[k].size <= stack[k - 1].size - stack[k - 1].pos)
  }

  function Top(stack: seq<ListPos>): ListPos
    requires stack != []
  {
    stack[|stack| - 1]
  }

  /** Bytes of list k that are still to be read; what an open inner list has consumed is not in stack[k].pos yet. */
  function Left(stack: seq<ListPos>, k: nat): int
    requires k < |stack|
    decreases |stack| - k
  {
    if k == |stack| - 1 then stack[k].size - stack[k].pos
    else stack[k].size - stack[k].pos - (stack[k + 1].size - Left(stack, k + 1))
  }

  /** The stack when n more bytes of the innermost list have been read. */
  function Advance(stack: seq<ListPos>, n: nat): seq<ListPos> {
    if stack == [] then [] else stack[|stack| - 1 := ListPos(Top(stack).pos + n, Top(stack).size)]
  }

  function Push(stack: seq<ListPos>, size: nat): seq<ListPos> {
    stack + [ListPos(0, size)]
  }

  /** The stack when the innermost list is closed: its bytes count for the list around it. */
  function Pop(stack: seq<ListPos>): seq<ListPos>
    requires stack != []
  {
    Advance(stack[..|stack| - 1], Top(stack).size)
  }

  lemma {:induction false} LeftNested(stack: seq<ListPos>, k: nat)
    requires Frames(stack) && k < |stack|
    ensures Top(stack).size - Top(stack).pos <= Left(stack, k)
    decreases |stack| - k
  {
    if k < |stack| - 1 {
      LeftNested(stack, k + 1);
    }
  }

  lemma {:induction false} LeftAdvance(stack: seq<ListPos>, n: nat, k: nat)
    requires k < |stack|
    ensures Left(Advance(stack, n), k) == Left(stack, k) - n
    decreases |stack| - k
  {
    if k < |stack| - 1 {
      LeftAdvance(stack, n, k + 1);
    }
  }

  lemma {:induction false} LeftPush(stack: seq<ListPos>, size: nat, k: nat)
    requires k < |stack|
    ensures Left(Push(stack, size), k) == Left(stack, k)
    decreases |stack| - k
  {
    if k < |stack| - 1 {
      LeftPush(stack, size, k + 1);
    } else {
      assert Left(Push(stack, size), k + 1) == size;
    }
  }

  lemma {:induction false} LeftPop(stack: seq<ListPos>, k: nat)
    requires k + 1 < |stack| && Top(stack).pos == Top(stack).size
    ensures Left(Pop(stack), k) == Left(stack, k)
    decreases |stack| - k
  {
    if k + 1 < |stack| - 1 {
      LeftPop(stack, k + 1);
    } else {
      assert Left(stack, k + 1) == 0;
    }
  }

  /** The parts of a stream that reading changes. */
  datatype Snapshot = Snapshot(avail: seq<Byte>, r: seq<Byte>, stack: seq<ListPos>, limited: bool, remaining: nat)

  /** How many bytes there is room for. */
  function RoomOf(s: Snapshot): int {
    if s.stack != [] then Top(s.stack).size - Top(s.stack).pos else if s.limited then s.remaining else |s.r|
  }

  /** From s to s', exactly the bytes b have been read. */
  ghost predicate IsTaken(s: Snapshot, b: seq<Byte>, s': Snapshot) {
    && s.avail == b + s'.avail && s.r == b + s'.r && s'.stack == Advance(s.stack, |b|)
    && s'.limited == s.limited && (s.limited ==> s'.remaining == s.remaining - |b|)
  }

  lemma TakenTwice(s: Snapshot, a: seq<Byte>, s': Snapshot, b: seq<Byte>, s'': Snapshot)
    requires IsTaken(s, a, s') && IsTaken(s', b, s'')
    ensures IsTaken(s, a + b, s'')
  {
    assert a + (b + s''.avail) == a + b + s''.avail;
    assert a + (b + s''.r) == a + b + s''.r;
  }

  /** At most the first room bytes of r. */
  function Clip(r: seq<Byte>, room: int): seq<Byte>
    requires room >= 0
  {
    if room <= |r| then r[..room] else r
  }

  lemma ClipBound(r: seq<Byte>, room: int)
    requires room >= 0
    ensures |Clip(r, room)| <= room
  {
  }

  lemma ClipTake(r: seq<Byte>, room: int, n: nat)
    requires n <= |r| && n <= room
    ensures Clip(r, room) == r[..n] + Clip(r[n..], room - n)
    ensures r == r[..n] + r[n..]
  {
    if room <= |r| {
      assert r[..room] == r[..n] + r[n..][..room - n];
    }
  }

  lemma TakenRest(s: Snapshot, n: nat, s': Snapshot)
    requires n <= |s.avail| && IsTaken(s, s.avail[..n], s')
    ensures s'.avail == s.avail[n..]
  {
  }

  lemma Remains(s: Snapshot, b: seq<Byte>, s': Snapshot)
    requires IsTaken(s, b, s')
    ensures s.avail == b + s'.avail && |s'.r| == |s.r| - |b|
    ensures s.stack != [] ==> s'.stack != [] && RoomOf(s') == RoomOf(s) - |b|
  {
  }

  lemma NothingTaken(s: Snapshot)
    ensures IsTaken(s, [], s)
  {
    assert [] + s.avail == s.avail && [] + s.r == s.r;
    if s.stack != [] {
      assert s.stack[|s.stack| - 1 := Top(s.stack)] == s.stack;
    }
  }

  /** Reading a header h, unless it was read before, and then the rest of the first n bytes of the view v. */
  lemma AfterHeader(a: seq<Byte>, s: Snapshot, h: seq<Byte>, s': Snapshot, v: seq<Byte>, n: nat, s'': Snapshot)
    requires (a == [] && IsTaken(s, h, s')) || (a == h && s == s')
    requires v == a + s.avail == h + s'.avail && |h| <= n <= |v| && IsTaken(s', v[|h|..n], s'')
    ensures IsTaken(s, v[|a|..n], s'')
  {
    if a == [] {
      TakenTwice(s, h, s', v[|h|..n], s'');
      assert v[..n] == h + v[|h|..n];
    }
  }

  // ---------------------------------------------------------------------------------------
  // The stream
  // ---------------------------------------------------------------------------------------

  class Stream {
    var r: seq<Byte>            // what the reader has yet to deliver
    var remaining: nat          // how much more of it the input limit allows
    var limited: bool
    var kind: Option<Kind>      // set once a header has been read, with the next three
    var size: nat
    var byteval: Byte           // the value itself, if it is a single small byte
    var kinderr: Option<Error>
    var stack: seq<ListPos>     // the lists that have been entered
    ghost var ahead: seq<Byte>  // the header bytes of the value ahead, already taken from r

    constructor (input: seq<Byte>, inputLimit: nat)
      ensures Valid() && r == input && stack == [] && kind.None? && ahead == []
      ensures limited && remaining == if inputLimit > 0 then inputLimit else |input|
    {
      r := input;
      limited := true;
      remaining := if inputLimit > 0 then inputLimit else |input|;
      stack, size, kind, kinderr, byteval := [], 0, None, None, 0;
      ahead := [];
    }

    /** A reader whose length is not known, read without a limit. */
    constructor Unlimited(input: seq<Byte>)
      ensures Valid() && r == input && stack == [] && kind.None? && ahead == [] && !limited
    {
      r := input;
      limited, remaining := false, 0;
      stack, size, kind, kinderr, byteval := [], 0, None, None, 0;
      ahead := [];
    }

    /** A stream whose first value counts as a list of that length, with its header read. */
    constructor ListStream(input: seq<Byte>, length: nat)
      requires 0 < length < WORD
      ensures Valid() && r == input && stack == [] && kind == Some(ListKind) && size == length && remaining == length
    {
      r := input;
      limited, remaining := true, length;
      stack, size, kind, kinderr, byteval := [], length, Some(ListKind), None, 0;
      ahead := Header(0xC0, 0xF7, length);
    }

    /** How many bytes the innermost list, or the input limit, allows to be read. */
    ghost function Room(): int
      reads this
    {
      if stack != [] then Top(stack).size - Top(stack).pos else if limited then remaining else |r|
    }

    lemma RoomIsNat()
      requires Valid()
      ensures Room() >= 0
    {
    }

    ghost predicate HasRoom(n: nat)
      reads this
    {
      (stack == [] && !limited) || n <= Room()
    }

    /** The bytes that can be read: those of the reader that there is room for. */
    ghost function Avail(): seq<Byte>
      requires Valid()
      reads this
    {
      Clip(r, Room())
    }

    /** The bytes from the start of the value ahead on, whether or not its header has been read. */
    ghost function View(): seq<Byte>
      requires Valid()
      reads this
    {
      ahead + Avail()
    }

    /** What every sequence of calls keeps. */
    ghost predicate Valid()
      reads this
    {
      && Frames(stack)
      && (limited && stack != [] ==> Left(stack, 0) <= remaining)
      && (kind.Some? && kinderr.None? ==>
            HasRoom(size) && HeadValues(kind.value, size, byteval) && ahead == HeaderOf(kind.value, size, byteval))
      && (kind.None? ==> ahead == [])
    }

    /** No error of an earlier call is waiting. */
    ghost predicate Clean()
      reads this
    {
      kind.None? || kinderr.None?
    }

    /** The first n bytes of the view have been consumed, and the stream is at the value after them. */
    twostate predicate Consumed(n: nat)
      requires old(Valid()) && Valid()
      reads this
    {
      && |old(ahead)| <= n <= |old(View())| && kind.None?
      && Took(old(View())[|old(ahead)|..n]) && View() == old(View())[n..]
    }

    /** The check before reading n bytes; inside a list it never runs into the input limit. */
    method WillRead(n: nat) returns (err: Option<Error>)
      requires Valid()
      modifies this`kind, this`stack, this`remaining, this`ahead
      ensures Valid() && kind.None?
      ensures err.None? <==> old(HasRoom(n))
      ensures err.Some? ==> err.value == if stack != [] then ElemTooLarge else ValueTooLarge
      ensures err.Some? ==> stack == old(stack) && remaining == old(remaining)
      ensures err.None? ==> stack == Advance(old(stack), n) && (limited ==> remaining == old(remaining) - n)
    {
      kind := None;
      ahead := [];
      if |stack| > 0 {
        var tos := Top(stack);
        if n > tos.size - tos.pos {
          return Some(ElemTooLarge);
        }
        LeftNested(stack, 0);
        LeftAdvance(stack, n, 0);
        stack := stack[|stack| - 1 := ListPos(tos.pos + n, tos.size)];
      }
      if limited {
        if n > remaining {
          return Some(ValueTooLarge);
        }
        remaining := remaining - n;
      }
      return None;
    }

    ghost function State(): Snapshot
      requires Valid()
      reads this
    {
      Snapshot(Avail(), r, stack, limited, remaining)
    }

    /** b has been read from the bytes that were available. */
    twostate predicate Took(b: seq<Byte>)
      requires old(Valid()) && Valid()
      reads this
    {
      IsTaken(old(State()), b, State())
    }

    method ReadByte() returns (b: Outcome<Byte>)
      requires Valid()
      modifies this`kind, this`stack, this`remaining, this`ahead, this`r
      ensures Valid() && kind.None?
      ensures b.Done? ==> Took([b.value])
      ensures b.Failed? ==> IsReadError(b.error) && old(Avail()) == []
      ensures b.Failed? && |stack| == 0 ==> b.error != ElemTooLarge
      ensures old(stack) == [] ==> stack == []
    {
      hide Frames;
      hide Left;
      hide HeaderOf;
      hide HeadValues;
      RoomIsNat();
      var err := WillRead(1);
      if err.Some? {
        return Failed(err.value);
      }
      if r == [] {
        return Failed(UnexpectedEOF);
      }
      ClipTake(r, old(Room()), 1);
      b := Done(r[0]);
      r := r[1..];
    }

    /** Reads n bytes, or as many as the reader has. */
    method ReadFull(n: nat) returns (b: Outcome<seq<Byte>>)
      requires Valid()
      modifies this`kind, this`stack, this`remaining, this`ahead, this`r
      ensures Valid() && kind.None?
      ensures b.Done? ==> |b.value| == n && Took(b.value)
      ensures b.Failed? ==> IsReadError(b.error) && |old(Avail())| < n
    {
      var err := WillRead(n);
      if err.Some? {
        return Failed(err.value);
      }
      if |r| < n {
        r := [];
        return Failed(UnexpectedEOF);
      }
      ClipTake(r, old(Room()), n);
      hide Clip;
      b := Done(r[..n]);
      r := r[n..];
    }

    /** A big-endian integer of n bytes; two or more must not start with zero. */
    method ReadUint(n: nat) returns (v: Outcome<nat>)
      requires Valid() && n <= 8
      modifies this`kind, this`stack, this`remaining, this`ahead, this`r
      ensures Valid() && kind.None?
      ensures v.Done? ==> n <= |old(Avail())| && Took(old(Avail())[..n]) && v.value == BigEndian(old(Avail())[..n])
      ensures v.Done? && n >= 2 ==> old(Avail())[0] != 0
      ensures v.Failed? ==> if v.error == CanonSize then 2 <= n <= |old(Avail())| && old(Avail())[0] == 0
                            else IsReadError(v.error) && |old(Avail())| < n
    {
      hide Clip;
      hide BigEndian;
      hide Frames;
      hide Left;
      NothingTaken(State());
      if n == 0 {
        NoBytes();
        assert Avail()[..0] == [];
        kind := None;
        ahead := [];
        return Done(0);
      } else if n == 1 {
        var b := ReadByte();
        if b.Failed? {
          return Failed(b.error);
        }
        OneByte(b.value);
        assert [b.value] == old(Avail())[..1];
        return Done(b.value);
      }
      var b := ReadFull(n);
      if b.Failed? {
        return Failed(b.error);
      }
      assert b.value == old(Avail())[..n];
      var start := 8 - n;
      var uintbuf := seq(start, _ => 0) + b.value;
      if uintbuf[start] == 0 {
        return Failed(CanonSize);
      }
      ZerosInFront(start, b.value);
      return Done(BigEndian(uintbuf));
    }

    /** The tag and size bytes of a value. */
    method ReadKind() returns (k: Kind, sz: nat, err: Option<Error>)
      requires Valid()
      modifies this`kind, this`stack, this`remaining, this`ahead, this`r, this`byteval
      ensures Valid() && kind.None?
      ensures err.None? <==> ParseHead(old(Avail())).Ok?
      ensures err.None? ==> ParseHead(old(Avail())).value == HeadOf(k, sz) && HeadValues(k, sz, byteval)
      ensures err.None? ==> Took(HeaderOf(k, sz, byteval))
      ensures err != Some(EOL)
      ensures old(stack == [] && Avail() == []) ==> err == Some(EOF)
    {
      hide Frames;
      hide Left;
      hide Clip;
      ghost var b := Avail();
      var first := ReadByte();
      if first.Failed? {
        var e := first.error;
        if |stack| == 0 && (e == UnexpectedEOF || e == ValueTooLarge) {
          e := EOF;
        }
        return ByteKind, 0, Some(e);
      }
      ghost var s1 := State();
      byteval := 0;
      var t := first.value;
      TagByte(b, t, Avail());
      if t < 0x80 {
        byteval := t;
        return ByteKind, 0, None;
      } else if t < 0xB8 {
        return StringKind, t - 0x80, None;
      } else if t < 0xC0 {
        sz, err := ReadLongSize(t - 0xB7);
        if err.None? {
          LongHeader(StringKind, b, t - 0xB7, sz);
          TakenTwice(old(State()), [t], s1, IntBytes(sz), State());
        }
        return StringKind, sz, err;
      } else if t < 0xF8 {
        return ListKind, t - 0xC0, None;
      } else {
        sz, err := ReadLongSize(t - 0xF7);
        if err.None? {
          LongHeader(ListKind, b, t - 0xF7, sz);
          TakenTwice(old(State()), [t], s1, IntBytes(sz), State());
        }
        return ListKind, sz, err;
      }
    }

    /** The size bytes after a long-form tag t; sizes below 56 are not canonical. */
    method ReadLongSize(n: nat) returns (sz: nat, err: Option<Error>)
      requires Valid() && kind.None? && 0 < n <= 8
      modifies this`kind, this`stack, this`remaining, this`ahead, this`r
      ensures Valid() && kind.None?
      ensures err.None? <==> ParseSize(old(Avail()), n).Ok?
      ensures err.None? ==> sz == ParseSize(old(Avail()), n).value && 56 <= sz < WORD && |IntBytes(sz)| == n
      ensures err.None? ==> Took(IntBytes(sz))
      ensures err != Some(EOL)
    {
      ghost var b := Avail();
      var v := ReadUint(n);
      if v.Failed? {
        return 0, Some(v.error);
      }
      sz := v.value;
      if sz < 56 {
        return sz, Some(CanonSize);
      }
      if n == 1 {
        OneByte(b[0]);
        assert b[..1] == [b[0]];
      }
      SizeIsBytes(b, n);
      return sz, None;
    }

    /** Nothing is left of the list that was entered last. */
    ghost predicate AtEnd()
      reads this
    {
      kind.None? && stack != [] && Room() == 0
    }

    /** The error for a value that does not fit into what is around it. */
    function TooLarge(): Error
      reads this
    {
      if stack != [] then ElemTooLarge else ValueTooLarge
    }

    /** Whether there is room for the content of a value. */
    method CheckSize(n: nat) returns (err: Option<Error>)
      ensures err == if HasRoom(n) then None else Some(TooLarge())
    {
      if |stack| == 0 {
        if limited && n > remaining {
          return Some(ValueTooLarge);
        }
      } else if n > Top(stack).size - Top(stack).pos {
        return Some(ElemTooLarge);
      }
      return None;
    }

    /** Reads the header of the value ahead, and keeps it or the error. */
    method ReadHeader()
      requires Valid() && kind.None? && !AtEnd()
      modifies this`kind, this`stack, this`remaining, this`ahead, this`r, this`byteval, this`size, this`kinderr
      ensures Valid() && kind.Some? && kinderr != Some(EOL)
      ensures kinderr.None? ==> View() == old(View()) && Took(ahead)
      ensures kinderr.Some? ==> WholeLength(old(View())).Err? && ParseValue(old(View())).Err?
      ensures old(stack == [] && Avail() == []) ==> kinderr == Some(EOF)
      ensures kinderr.Some? && ParseHead(old(Avail())).Ok? ==> kinderr == Some(TooLarge())
    {
      hide HeadValues;
      hide Frames;
      hide Left;
      hide Clip;
      hide Header;
      hide ParseHead;
      hide ParseValue;
      hide WholeLength;
      hide HeaderOf;
      hide HeadOf;
      kinderr := None;
      ghost var v := View();
      assert v == Avail();
      var newKind, newSize, newErr := ReadKind();
      ghost var h := HeaderOf(newKind, newSize, byteval);
      if newErr.None? {
        newErr := CheckSize(newSize);
        if newErr.Some? {
          assert v == h + Avail();
          RoomIsNat();
          ClipBound(r, Room());
          ValueMissing(v, newKind, newSize, byteval, Avail());
        }
      } else {
        NoHead(v);
      }
      kind, size, kinderr := Some(newKind), newSize, newErr;
      if newErr.None? {
        ahead := h;
      }
    }

    /** What the header ahead says; it is read once, and an error stays. */
    method PeekKind() returns (k: Kind, sz: nat, err: Option<Error>)
      requires Valid()
      modifies this`kind, this`stack, this`remaining, this`ahead, this`r, this`byteval, this`size, this`kinderr
      ensures Valid()
      ensures old(AtEnd()) ==> err == Some(EOL) && kind.None? && State() == old(State())
      ensures old(kind.Some?) ==> err == old(kinderr) && State() == old(State()) && ahead == old(ahead) &&
                                  kind == old(kind) && byteval == old(byteval)
      ensures !old(AtEnd()) && old(Clean()) ==> err != Some(EOL)
      ensures err.None? ==> kind == Some(k) && size == sz && kinderr.None? && View() == old(View()) &&
                            ParseHead(View()) == Ok(HeadOf(k, sz))
      ensures err.None? && old(kind.None?) ==> Took(ahead)
      ensures err.Some? && old(Clean()) ==> WholeLength(old(View())).Err? && ParseValue(old(View())).Err?
      ensures old(kind.None? && stack == [] && Avail() == []) ==> err == Some(EOF)
      ensures err.Some? && old(kind.None?) && ParseHead(old(Avail())).Ok? ==> err == Some(TooLarge())
    {
      hide HeadValues;
      hide Frames;
      hide Left;
      hide Clip;
      hide Header;
      hide ParseHead;
      hide ParseValue;
      hide WholeLength;
      hide HeaderOf;
      hide HeadOf;
      if kind.None? {
        RoomIsNat();
        ClipBound(r, Room());
        if |stack| > 0 && Top(stack).pos == Top(stack).size {
          kinderr := None;
          NothingAhead();
          assert View() == [];
          return ByteKind, 0, Some(EOL);
        }
        ReadHeader();
      }
      if kinderr.None? {
        HeadAhead(kind.value, size, byteval, Avail());
      }
      return kind.value, size, kinderr;
    }

    /** Takes the content of a small byte or string whose header has been read. */
    method TakeString() returns (b: Outcome<seq<Byte>>)
      requires Valid() && kinderr.None? && (kind == Some(ByteKind) || kind == Some(StringKind))
      modifies this`kind, this`stack, this`remaining, this`ahead, this`r
      ensures Valid()
      ensures b.Done? <==> ParseValue(old(View())).Ok?
      ensures b.Done? ==> b.value == Content(old(View()), ParseValue(old(View())).value) &&
                          Consumed(ValueLength(old(View())))
      ensures b.Failed? ==> b.error != EOL
    {
      hide Frames;
      hide Left;
      hide Clip;
      hide Header;
      hide ParseHead;
      hide ParseValue;
      hide HeaderOf;
      hide HeadOf;
      ghost var v, h, s1 := View(), ahead, State();
      if kind == Some(ByteKind) {
        b := Done([byteval]);
        kind := None;
        ahead := [];
        NothingTaken(s1);
        ByteRead(v, h, byteval, Avail());
      } else {
        var sz := size;
        b := ReadFull(sz);
        if b.Failed? {
          ValueMissing(v, StringKind, sz, byteval, s1.avail);
          return;
        }
        StringRead(v, h, sz, byteval, b.value, Avail());
        if sz == 1 && b.value[0] < 128 {
          return Failed(CanonSize);
        }
      }
    }

    /** The content of the string ahead. */
    method Bytes() returns (b: Outcome<seq<Byte>>)
      requires Valid()
      modifies this
      ensures Valid()
      ensures b.Done? ==> old(Clean()) && IsString(old(View())) &&
                          b.value == Content(old(View()), ParseValue(old(View())).value) &&
                          Consumed(ValueLength(old(View())))
      ensures b.Failed? && old(Clean()) ==> !IsString(old(View()))
      ensures b.Failed? && old(Clean()) && !old(AtEnd()) ==> b.error != EOL
    {
      hide Frames;
      hide Left;
      hide Clip;
      hide Header;
      hide ParseHead;
      hide HeaderOf;
      ghost var a, s0, v := ahead, State(), View();
      var k, sz, err := PeekKind();
      if err.Some? {
        return Failed(err.value);
      }
      ghost var h, s1 := ahead, State();
      if k == ListKind {
        return Failed(ExpectedString);
      }
      b := TakeString();
      if b.Done? {
        AfterHeader(a, s0, h, s1, v, ValueLength(v), State());
      }
    }

    /** Takes the bytes of an unsigned integer whose header has been read. */
    method TakeUint(maxbytes: nat) returns (u: Outcome<nat>)
      requires Valid() && kinderr.None? && (kind == Some(ByteKind) || kind == Some(StringKind)) && 0 < maxbytes <= 8
      modifies this`kind, this`stack, this`remaining, this`ahead, this`r
      ensures Valid()
      ensures u.Done? <==> ParseUint(old(View()), maxbytes).Ok?
      ensures u.Done? ==> u.value == ParseUint(old(View()), maxbytes).value && Consumed(ValueLength(old(View())))
      ensures u.Failed? ==> u.error != EOL
    {
      hide Frames;
      hide Left;
      hide Clip;
      hide Header;
      hide ParseHead;
      hide ParseValue;
      hide HeaderOf;
      hide HeadOf;
      hide IsTaken;
      hide WholeLength;
      hide ParseUint;
      hide BigEndian;
      ghost var v, h, s1 := View(), ahead, State();
      if kind == Some(ByteKind) {
        SmallUint(v, h, byteval, Avail(), maxbytes);
        if byteval == 0 {
          return Failed(CanonInt);
        }
        kind := None;
        ahead := [];
        NothingTaken(s1);
        return Done(byteval);
      }
      var sz := size;
      if sz > maxbytes {
        TooLong(v, sz, byteval, s1.avail);
        return Failed(UintOverflow);
      }
      UintRead(v, h, sz, byteval, s1.avail, maxbytes);
      u := ReadUint(sz);
      if u.Failed? {
        return Failed(if u.error == CanonSize then CanonInt else u.error);
      }
      TakenRest(s1, sz, State());
      if sz > 0 && u.value < 128 {
        return Failed(CanonSize);
      }
    }

    /** An unsigned integer of at most maxbits. */
    method Uint(maxbits: nat) returns (u: Outcome<nat>)
      requires Valid() && 8 <= maxbits <= 64
      modifies this
      ensures Valid()
      ensures u.Done? ==> old(Clean()) && ParseUint(old(View()), maxbits / 8) == Ok(u.value) &&
                          Consumed(ValueLength(old(View())))
      ensures u.Failed? && old(Clean()) ==> ParseUint(old(View()), maxbits / 8).Err?
    {
      hide Frames;
      hide Left;
      hide Clip;
      hide Header;
      hide ParseHead;
      hide HeaderOf;
      ghost var a, s0, v := ahead, State(), View();
      var k, sz, err := PeekKind();
      if err.Some? {
        return Failed(err.value);
      }
      ghost var h, s1 := ahead, State();
      if k == ListKind {
        return Failed(ExpectedString);
      }
      u := TakeUint(maxbits / 8);
      if u.Done? {
        AfterHeader(a, s0, h, s1, v, ValueLength(v), State());
      }
    }

    /** Takes the value whose header has been read, and puts a header in front of its content again. */
    method TakeRaw() returns (raw: Outcome<seq<Byte>>)
      requires Valid() && kinderr.None? && kind.Some?
      modifies this`kind, this`stack, this`remaining, this`ahead, this`r
      ensures Valid()
      ensures raw.Done? ==> WholeLength(old(View())) == Ok(|raw.value|) && Consumed(|raw.value|) &&
                            raw.value == old(View())[..|raw.value|]
      ensures raw.Failed? ==> WholeLength(old(View())).Err?
    {
      hide Frames;
      hide Left;
      hide Clip;
      hide Header;
      hide ParseHead;
      hide WholeLength;
      hide HeaderOf;
      ghost var v, h, s1 := View(), ahead, State();
      var k, sz := kind.value, size;
      WholeValue(v, k, sz, byteval, s1.avail);
      if k == ByteKind {
        ByteHeader(byteval);
        raw := Done([byteval]);
        kind := None;
        ahead := [];
        NothingTaken(s1);
        Cut(v, h, [], Avail());
      } else {
        HeaderLength(k, sz, byteval);
        var start := RlpEncode.HeadSize(sz);
        var content := ReadFull(sz);
        if content.Failed? {
          return Failed(content.error);
        }
        Cut(v, h, content.value, Avail());
        raw := Rebuilt(k, start, content.value);
      }
    }

    /** The next value with its header, as it stood in the input. */
    method Raw() returns (raw: Outcome<seq<Byte>>)
      requires Valid()
      modifies this
      ensures Valid()
      ensures raw.Done? ==> old(Clean()) && WholeLength(old(View())) == Ok(|raw.value|) && Consumed(|raw.value|) &&
                            raw.value == old(View())[..|raw.value|]
      ensures raw.Failed? && old(Clean()) ==> WholeLength(old(View())).Err?
    {
      hide Frames;
      hide Left;
      hide Clip;
      hide Header;
      hide ParseHead;
      hide WholeLength;
      hide HeaderOf;
      ghost var a, s0, v := ahead, State(), View();
      var k, sz, err := PeekKind();
      if err.Some? {
        return Failed(err.value);
      }
      ghost var h, s1 := ahead, State();
      raw := TakeRaw();
      if raw.Done? {
        AfterHeader(a, s0, h, s1, v, |raw.value|, State());
      }
    }

    /**
      Starts decoding a list. outer is the state with the header read, before the list is entered.
    */
    method List() returns (sz: Outcome<nat>, ghost outer: Snapshot)
      requires Valid()
      modifies this
      ensures Valid()
      ensures sz.Done? ==>
        var h := Header(0xC0, 0xF7, sz.value);
        old(Clean()) && sz.value < WORD && (outer.stack != [] || outer.limited ==> sz.value <= RoomOf(outer)) &&
          old(View()) == h + outer.avail &&
        ((old(ahead) == [] && IsTaken(old(State()), h, outer)) || (old(ahead) == h && outer == old(State())))
      ensures sz.Done? ==> kind.None? && Entered(outer, sz.value)
      ensures sz.Failed? && old(Clean()) && !old(AtEnd()) ==> sz.error != EOL
      ensures sz.Failed? && old(Clean()) ==> !IsList(old(View()))
      ensures old(kind == Some(ListKind) && kinderr.None?) ==> sz.Done?
    {
      hide Clip;
      hide Header;
      hide ParseHead;
      hide IsTaken;
      ghost var v := View();
      var k, n, err := PeekKind();
      outer := State();
      if err.Some? {
        return Failed(err.value), outer;
      }
      ListAhead(v, k, n);
      if k != ListKind {
        return Failed(ExpectedList), outer;
      }
      sz := Done(n);
      EnterFrames(stack, n);
      stack := Push(stack, n);
      kind, size, ahead := None, 0, [];
    }

    /** The stream has just entered a list of size n. */
    ghost predicate Entered(outer: Snapshot, n: nat)
      reads this
    {
      stack == Push(outer.stack, n) && r == outer.r && limited == outer.limited && remaining == outer.remaining
    }

    /** Returns to the enclosing list. */
    method ListEnd() returns (err: Option<Error>)
      requires Valid()
      modifies this
      ensures Valid()
      ensures err.None? <==> old(stack) != [] && Top(old(stack)).pos == Top(old(stack)).size
      ensures err.None? ==> kind.None? && stack == Pop(old(stack)) && r == old(r) && limited == old(limited) &&
                            remaining == old(remaining)
      ensures err != Some(EOL)
    {
      if |stack| == 0 {
        return Some(NotInList);
      }
      var tos := Top(stack);
      if tos.pos != tos.size {
        return Some(NotAtEOL);
      }
      LeaveFrames(stack);
      stack := Pop(stack);
      kind := None;
      size := 0;
      ahead := [];
      return None;
    }

    /** The bytes taken for the value ahead, and those to come. */
    ghost function Weight(): nat
      reads this
    {
      |ahead| + |r|
    }

    /** Decodes the next value, of any kind, whether or not its header has been read. */
    method DecodeInterface() returns (x: Outcome<Item>)
      requires Valid()
      modifies this
      ensures Valid() && (x.Done? ==> |r| <= |old(r)|)
      ensures old(AtEnd()) ==> x == Failed(EOL) && kind.None? && State() == old(State())
      ensures !old(AtEnd()) && old(Clean()) ==> x != Failed(EOL) && (x.Done? <==> Parse(old(View())).Ok?)
      ensures !old(Clean()) ==> x.Failed?
      ensures x.Done? ==> x.value == Parse(old(View())).value.0 && Consumed(Parse(old(View())).value.1)
      decreases Weight(), 1
    {
      hide Frames;
      hide Left;
      hide Clip;
      hide Header;
      hide HeaderOf;
      hide ParseHead;
      hide ParseValue;
      hide WholeLength;
      ghost var a, s0, v, clean := ahead, State(), View(), Clean();
      var k, sz, err := PeekKind();
      if err.Some? {
        if clean {
          NoValue(v);
        }
        return Failed(err.value);
      }
      ghost var h, s1 := ahead, State();
      HeaderNotEmpty(kind.value, size, byteval);
      if k == ListKind {
        var xs := DecodeListSlice();
        if xs.Failed? {
          return Failed(xs.error);
        }
        x := Done(Item.List(xs.value));
      } else {
        var b := Bytes();
        StringParses(v);
        if b.Failed? {
          return Failed(b.error);
        }
        x := Done(Str(b.value));
      }
      AfterHeader(a, s0, h, s1, v, Parse(v).value.1, State());
    }

    /** Decodes the list whose header has been read. */
    method DecodeListSlice() returns (xs: Outcome<seq<Item>>)
      requires Valid() && kinderr.None? && kind == Some(ListKind)
      modifies this
      ensures Valid() && (xs.Done? ==> |r| <= |old(r)|) && xs != Failed(EOL)
      ensures xs.Done? <==> Parse(old(View())).Ok?
      ensures xs.Done? ==> Parse(old(View())).value.0 == Item.List(xs.value) && Consumed(Parse(old(View())).value.1)
      decreases Weight(), 0
    {
      hide HasRoom;
      hide HeadValues;
      hide HeaderOf;
      hide Frames;
      hide Left;
      hide Clip;
      hide Header;
      hide ParseHead;
      hide ParseValue;
      hide ParseAll;
      hide Parse;
      ListHeaderAhead();
      ghost var v, h := View(), ahead;
      var size, outer := List();
      match size {
        case Failed(e) => return Failed(e);
        case Done(_) =>
      }
      ghost var inner, sz := State(), size.value;
      ListParses(v, h, sz, outer.avail);
      InnerAvail(outer, sz);
      xs := DecodeSliceElems();
      if xs.Failed? {
        return;
      }
      ghost var c := inner.avail;
      ghost var s2 := State();
      var err := ListEnd();
      match err {
        case Some(e) => return Failed(e);
        case None =>
      }
      ListTaken(outer, sz, c, inner, s2, State());
      Cut(v, h, c, Avail());
    }

    lemma ListHeaderAhead()
      requires Valid() && kinderr.None? && kind == Some(ListKind)
      ensures ahead != []
    {
      SizeBytes(size);
    }

    /** Decodes elements up to the end of the list. */
    method DecodeSliceElems() returns (xs: Outcome<seq<Item>>)
      requires Valid() && kind.None? && stack != []
      modifies this
      ensures Valid() && (xs.Done? ==> |r| <= |old(r)|) && xs != Failed(EOL)
      ensures xs.Done? <==> |old(Avail())| == old(Room()) && ParseAll(old(Avail())).Ok?
      ensures xs.Done? ==> xs.value == ParseAll(old(Avail())).value && kind.None? && Took(old(Avail())) &&
                           stack != [] && Room() == 0
      decreases Weight(), 2
    {
      xs := Done([]);
      ghost var s0, all := State(), Avail();
      ghost var taken := [];
      NothingTaken(s0);
      PrependNothing(ParseAll(all));
      hide Frames;
      hide Left;
      hide Clip;
      hide Parse;
      hide ParseAll;
      hide Prepend;
      hide IsTaken;
      hide Header;
      hide HeaderOf;
      hide ParseHead;
      hide ParseValue;
      while true
        invariant Valid() && kind.None? && stack != [] && xs.Done?
        invariant IsTaken(s0, taken, State())
        invariant ParseAll(all) == Prepend(xs.value, ParseAll(Avail()))
        decreases |r|
      {
        ghost var s1, v := State(), Avail();
        RoomIsNat();
        ClipBound(r, Room());
        FirstItem(v);
        Remains(s0, taken, s1);
        assert View() == v;
        var x := DecodeInterface();
        if x == Failed(EOL) {
          assert v == [];
          assert taken == all;
          PrependRest(xs.value);
          break;
        } else if x.Failed? {
          PrependFailure(xs.value);
          return Failed(x.error);
        }
        PrependOne(xs.value, v);
        ghost var n := Parse(v).value.1;
        assert v[0..n] == v[..n];
        Remains(s1, v[..n], State());
        TakenTwice(s0, taken, s1, v[..n], State());
        taken := taken + v[..n];
        xs := Done(xs.value + [x.value]);
      }
      Remains(s0, taken, State());
    }
  }

  /** The items before the rest of a list. */
  function Prepend(xs: seq<Item>, rest: Result<seq<Item>>): Result<seq<Item>> {
    match rest
    case Err => Err
    case Ok(ys) => Ok(xs + ys)
  }

  lemma FirstItem(v: seq<Byte>)
    ensures v == [] ==> Parse(v).Err? && ParseAll(v) == Ok([])
    ensures v != [] && Parse(v).Err? ==> ParseAll(v).Err?
    ensures Parse(v).Ok? ==> v != [] && 0 < Parse(v).value.1 <= |v|
  {
  }

  lemma PrependNothing(rest: Result<seq<Item>>)
    ensures Prepend([], rest) == rest
  {
    if rest.Ok? {
      assert [] + rest.value == rest.value;
    }
  }

  lemma PrependRest(xs: seq<Item>)
    ensures Prepend(xs, ParseAll([])) == Ok(xs)
  {
    assert xs + [] == xs;
  }

  lemma PrependFailure(xs: seq<Item>)
    ensures Prepend(xs, Err) == Err
  {
  }

  lemma PrependOne(xs: seq<Item>, v: seq<Byte>)
    requires v != [] && Parse(v).Ok?
    ensures Prepend(xs, ParseAll(v)) == Prepend(xs + [Parse(v).value.0], ParseAll(v[Parse(v).value.1..]))
  {
    var rest := ParseAll(v[Parse(v).value.1..]);
    if rest.Ok? {
      assert xs + ([Parse(v).value.0] + rest.value) == xs + [Parse(v).value.0] + rest.value;
    }
  }

  lemma NoValue(v: seq<Byte>)
    requires ParseValue(v).Err?
    ensures Parse(v).Err?
  {
  }

  lemma HeaderNotEmpty(kind: Kind, size: nat, byteval: Byte)
    ensures HeaderOf(kind, size, byteval) != []
  {
  }

  lemma StringParses(v: seq<Byte>)
    requires ParseHead(v).Ok? && ParseHead(v).value.kind != ListKind
    ensures Parse(v).Ok? <==> IsString(v)
    ensures IsString(v) ==> Parse(v) == Ok((Str(Content(v, ParseValue(v).value)), ValueLength(v)))
  {
  }

  /** A list with its header h, as it stands in the view. */
  lemma ListParses(v: seq<Byte>, h: seq<Byte>, size: nat, rest: seq<Byte>)
    requires size < WORD && h == Header(0xC0, 0xF7, size) && v == h + rest
    ensures |rest| < size ==> Parse(v).Err?
    ensures |rest| >= size ==> (Parse(v).Ok? <==> ParseAll(rest[..size]).Ok?)
    ensures Parse(v).Ok? ==> Parse(v) == Ok((Item.List(ParseAll(rest[..size]).value), |h| + size))
  {
    HeadAhead(ListKind, size, 0, rest);
    hide Header;
    hide ParseHead;
    if |rest| >= size {
      assert Content(v, HeadOf(ListKind, size)) == rest[..size];
    }
  }

  /** What can be read of a list is what can be read around it, up to the size of the list. */
  lemma InnerAvail(outer: Snapshot, size: nat)
    requires RoomOf(outer) >= 0 && outer.avail == Clip(outer.r, RoomOf(outer))
    requires outer.stack != [] || outer.limited ==> size <= RoomOf(outer)
    ensures |outer.avail| >= size ==> Clip(outer.r, size) == outer.avail[..size]
    ensures |outer.avail| < size ==> |Clip(outer.r, size)| < size
  {
  }

  /** Entering a list, reading all of it and leaving it amounts to reading its bytes. */
  lemma ListTaken(outer: Snapshot, size: nat, c: seq<Byte>, inner: Snapshot, s: Snapshot, after: Snapshot)
    requires RoomOf(outer) >= 0 && outer.avail == Clip(outer.r, RoomOf(outer))
    requires outer.stack != [] || outer.limited ==> size <= RoomOf(outer)
    requires inner.stack == Push(outer.stack, size) && inner.r == outer.r && inner.limited == outer.limited
    requires inner.remaining == outer.remaining && IsTaken(inner, c, s) && |c| == size
    requires after.stack == Pop(s.stack) && after.r == s.r && after.limited == s.limited
    requires after.remaining == s.remaining && RoomOf(after) >= 0 && after.avail == Clip(after.r, RoomOf(after))
    ensures IsTaken(outer, c, after)
  {
    ClipTake(outer.r, RoomOf(outer), size);
    hide Clip;
    assert outer.r[..size] == c && outer.r[size..] == after.r;
    assert s.stack == Push(outer.stack, size)[|outer.stack| := ListPos(size, size)];
    assert s.stack[..|outer.stack|] == outer.stack;
  }

  /** DecodeBytes: the input must hold exactly one value. */
  method DecodeBytes(b: seq<Byte>) returns (x: Outcome<Item>)
    ensures x.Done? <==> Parse(b).Ok? && Parse(b).value.1 == |b|
    ensures x.Done? ==> Encode(x.value) == b
    ensures forall y: Item :: |b| < WORD && Encode(y) == b ==> x == Done(y)
  {
    hide Parse;
    hide Encode;
    hide Clip;
    var s := new Stream(b, |b|);
    WholeInput(b);
    assert s.View() == s.Avail();
    x := s.DecodeInterface();
    if x.Done? && |s.r| > 0 {
      x := Failed(MoreThanOneValue);
    }
    OnlyEncoding(b);
  }

  lemma WholeInput(b: seq<Byte>)
    ensures Clip(b, |b|) == b
  {
  }

  /** b parses as one value and nothing more exactly when it is the encoding of that value. */
  lemma OnlyEncoding(b: seq<Byte>)
    ensures Parse(b).Ok? && Parse(b).value.1 == |b| ==> Encode(Parse(b).value.0) == b
    ensures forall y: Item :: |b| < WORD && Encode(y) == b ==> Parse(b) == Ok((y, |b|))
  {
    if Parse(b).Ok? && Parse(b).value.1 == |b| {
      EncodeParse(b);
      assert b[..|b|] == b;
    }
    forall y: Item | |b| < WORD && Encode(y) == b
      ensures Parse(b) == Ok((y, |b|))
    {
      ParseEncode(y, []);
      assert b + [] == b;
    }
  }

  lemma Cut(v: seq<Byte>, h: seq<Byte>, c: seq<Byte>, rest: seq<Byte>)
    requires v == h + (c + rest)
    ensures v[..|h| + |c|] == h + c && v[|h|..|h| + |c|] == c && v[|h| + |c|..] == rest
  {
  }

  /** The length of the value at the start of b with its header, whatever its content. */
  function WholeLength(b: seq<Byte>): Result<nat> {
    match ParseHead(b)
    case Err => Err
    case Ok(h) => if h.length + h.size <= |b| then Ok(h.length + h.size) else Err
  }

  lemma WholeValue(v: seq<Byte>, kind: Kind, size: nat, byteval: Byte, rest: seq<Byte>)
    requires HeadValues(kind, size, byteval) && v == HeaderOf(kind, size, byteval) + rest
    ensures var n := |HeaderOf(kind, size, byteval)| + size;
            WholeLength(v) == if n <= |v| then Ok(n) else Err
  {
    HeadAhead(kind, size, byteval, rest);
    hide Header;
    hide ParseHead;
  }

  lemma ByteHeader(byteval: Byte)
    ensures HeaderOf(ByteKind, 0, byteval) == [byteval]
  {
  }

  lemma HeaderLength(kind: Kind, size: nat, byteval: Byte)
    requires kind != ByteKind
    ensures HeaderOf(kind, size, byteval) == HeaderOf(kind, size, 0)
    ensures |HeaderOf(kind, size, byteval)| == |Header(0x80, 0xB7, size)| == |Header(0xC0, 0xF7, size)|
  {
  }

  /** The header is put in front of the content again. */
  method Rebuilt(k: Kind, start: nat, content: seq<Byte>) returns (raw: Outcome<seq<Byte>>)
    requires k != ByteKind && |content| < WORD && start == |HeaderOf(k, |content|, 0)|
    ensures raw == Done(HeaderOf(k, |content|, 0) + content)
  {
    hide Header;
    var buf := new Byte[start + |content|];
    var n := RlpEncode.Copy(buf, start, content);
    assert buf[start..] == content;
    if k == StringKind {
      n := RlpEncode.PutHead(buf, 0, 0x80, 0xB7, |content|);
    } else {
      n := RlpEncode.PutHead(buf, 0, 0xC0, 0xF7, |content|);
    }
    raw := Done(buf[..]);
    assert buf[..] == buf[0..n] + buf[n..];
  }

  ghost predicate IsList(b: seq<Byte>) {
    ParseValue(b).Ok? && ParseValue(b).value.kind == ListKind
  }

  lemma ListAhead(v: seq<Byte>, kind: Kind, size: nat)
    requires ParseHead(v) == Ok(HeadOf(kind, size))
    ensures kind != ListKind ==> !IsList(v)
  {
  }

  lemma EnterFrames(stack: seq<ListPos>, n: nat)
    requires Frames(stack) && (stack != [] ==> n <= Top(stack).size - Top(stack).pos)
    ensures Frames(Push(stack, n)) && Left(Push(stack, n), 0) == if stack == [] then n else Left(stack, 0)
  {
    if stack != [] {
      LeftPush(stack, n, 0);
    }
  }

  lemma LeaveFrames(stack: seq<ListPos>)
    requires Frames(stack) && stack != [] && Top(stack).pos == Top(stack).size
    ensures Frames(Pop(stack)) && (Pop(stack) != [] ==> Left(Pop(stack), 0) == Left(stack, 0))
  {
    if |stack| > 1 {
      LeftPop(stack, 0);
    }
  }

  lemma SplitContent(b: seq<Byte>, n: nat)
    ensures n <= |b| ==> b == b[..n] + b[n..]
  {
  }

  /** The integer at the start of b: a string of at most maxbytes bytes without a leading zero. */
  function ParseUint(b: seq<Byte>, maxbytes: nat): Result<nat> {
    if !IsString(b) then Err
    else
      var c := Content(b, ParseValue(b).value);
      if |c| > maxbytes || (c != [] && c[0] == 0) then Err else Ok(BigEndian(c))
  }

  lemma TooLong(v: seq<Byte>, size: nat, byteval: Byte, rest: seq<Byte>)
    requires HeadValues(StringKind, size, byteval) && v == HeaderOf(StringKind, size, byteval) + rest
    ensures ParseUint(v, if size == 0 then 0 else size - 1).Err? || size == 0
    ensures forall n :: 0 < n < size ==> ParseUint(v, n).Err?
  {
    hide Header;
    hide HeaderOf;
    if |rest| < size {
      ValueMissing(v, StringKind, size, byteval, rest);
    } else {
      SplitContent(rest, size);
      StringRead(v, HeaderOf(StringKind, size, byteval), size, byteval, rest[..size], rest[size..]);
    }
  }

  /** A byte string without leading zero has a value below 128 only if it is one small byte, or empty. */
  lemma SmallValue(c: seq<Byte>)
    ensures c == [] ==> BigEndian(c) == 0
    ensures |c| == 1 ==> BigEndian(c) == c[0]
    ensures |c| >= 2 && c[0] != 0 ==> BigEndian(c) >= 128
  {
    if |c| == 1 {
      OneByte(c[0]);
      assert c == [c[0]];
    } else if |c| >= 2 && c[0] != 0 {
      ShortestBytes(c[..|c| - 1]);
    }
  }

  lemma SmallUint(v: seq<Byte>, h: seq<Byte>, byteval: Byte, rest: seq<Byte>, maxbytes: nat)
    requires HeadValues(ByteKind, 0, byteval) && h == HeaderOf(ByteKind, 0, byteval) && v == h + rest && maxbytes > 0
    ensures v[|h|..|h|] == [] && v[|h|..] == rest
    ensures if byteval == 0 then ParseUint(v, maxbytes).Err?
            else ParseUint(v, maxbytes) == Ok(byteval) && ValueLength(v) == |h|
  {
    hide HeaderOf;
    ByteRead(v, h, byteval, rest);
    OneByte(byteval);
  }

  /** What TakeUint's checks on a string of size bytes amount to. */
  lemma UintRead(v: seq<Byte>, h: seq<Byte>, size: nat, byteval: Byte, rest: seq<Byte>, maxbytes: nat)
    requires HeadValues(StringKind, size, byteval) && h == HeaderOf(StringKind, size, byteval) && v == h + rest
    requires size <= maxbytes
    ensures |rest| < size ==> ParseUint(v, maxbytes).Err?
    ensures |rest| >= size >= 2 && rest[0] == 0 ==> ParseUint(v, maxbytes).Err?
    ensures |rest| >= size > 0 && BigEndian(rest[..size]) < 128 ==> ParseUint(v, maxbytes).Err?
    ensures |rest| >= size && (size >= 2 ==> rest[0] != 0) && (size > 0 ==> BigEndian(rest[..size]) >= 128) ==>
      ParseUint(v, maxbytes) == Ok(BigEndian(rest[..size])) && ValueLength(v) == |h| + size
    ensures |rest| >= size ==> v[|h|..|h| + size] == rest[..size] && v[|h| + size..] == rest[size..]
  {
    hide Header;
    hide HeaderOf;
    hide BigEndian;
    if |rest| < size {
      ValueMissing(v, StringKind, size, byteval, rest);
    } else {
      var c := rest[..size];
      SplitContent(rest, size);
      StringRead(v, h, size, byteval, c, rest[size..]);
      hide ParseValue;
      SmallValue(c);
    }
  }

  lemma OneByte(b: Byte)
    ensures BigEndian([b]) == b
  {
    assert [b][..0] == [];
  }

  /** Filling up with zeros on the left does not change the value. */
  lemma {:induction false} ZerosInFront(n: nat, b: seq<Byte>)
    ensures BigEndian(seq<Byte>(n, _ => 0) + b) == BigEndian(b)
    decreases n + |b|
  {
    var s: seq<Byte> := seq(n, _ => 0);
    if b != [] {
      ZerosInFront(n, b[..|b| - 1]);
      assert (s + b)[..|s + b| - 1] == s + b[..|b| - 1];
    } else if n > 0 {
      ZerosInFront(n - 1, []);
      assert s + b == s;
      var t: seq<Byte> := seq(n - 1, _ => 0);
      assert s[..n - 1] == t + [];
    } else {
      assert s + b == [];
    }
  }

  // ---------------------------------------------------------------------------------------
  // Unsigned integers of each width
  // ---------------------------------------------------------------------------------------

  /** Decoding the encoding of an integer of at most maxbytes returns the integer. */
  lemma UintDecodes(i: nat, maxbytes: nat, rest: seq<Byte>)
    requires 0 < maxbytes <= 8 && i < Pow2(8 * maxbytes)
    ensures ParseUint(Encode(UintItem(i)) + rest, maxbytes) == Ok(i)
    ensures ValueLength(Encode(UintItem(i)) + rest) == |Encode(UintItem(i))|
  {
    var c := if i == 0 then [] else IntBytes(i);
    IntBytesLength(i, maxbytes);
    IntBytesValue(i);
    NoBytes();
    hide Pow2;
    hide IntBytes;
    hide BigEndian;
    if |c| == 1 && c[0] < 0x80 {
      SmallByte(c, rest);
    } else {
      hide Header;
      ValueOf(0x80, 0xB7, StringKind, c, rest);
    }
  }

  /** An integer that is accepted re-encodes to the bytes it was read from, and fits its width. */
  lemma UintEncodes(b: seq<Byte>, maxbytes: nat)
    requires 0 < maxbytes <= 8 && ParseUint(b, maxbytes).Ok?
    ensures Encode(UintItem(ParseUint(b, maxbytes).value)) == b[..ValueLength(b)]
    ensures ParseUint(b, maxbytes).value < Pow2(8 * maxbytes)
  {
    var i := ParseUint(b, maxbytes).value;
    var c := Content(b, ParseValue(b).value);
    EncodeParse(b);
    if c == [] {
      NoBytes();
    } else {
      ShortestBytes(c);
      IntBytesLength(i, maxbytes);
    }
    assert UintItem(i) == Str(c);
  }
}
