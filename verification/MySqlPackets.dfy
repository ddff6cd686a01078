/**
  The packets of the MySQL client-server protocol (MySQL Internals Manual, section "MySQL Packets"): a header of
  a 24-bit length and a sequence number, and payloads split into chunks of 2^24 - 1 bytes (packets.go).
*/
module MySqlPackets {
  import opened Bits
  import opened MySqlBuffer
  import opened Sequences

  const MAX := 0xff_ffff // maxPacketSize

  datatype Outcome =
    | Sent
    | PktTooLarge
    | BadConnNoWrite // the caller may try again on another connection
    | InvalidConn

  datatype Received =
    | Payload(data: seq<Byte>)
    | PktSync
    | PktSyncMul
    | Invalid

  function Header(n: nat, sequence: Byte): (h: seq<Byte>)
    ensures |h| == 4
  {
    [n % 256, n / 256 % 256, n / 0x1_0000 % 256, sequence]
  }

  function Next(sequence: Byte): Byte {
    (sequence + 1) % 256
  }

  /** A payload on the wire. One that fills its last chunk is ended by an empty chunk. */
  function Frames(sequence: Byte, payload: seq<Byte>): (f: seq<Byte>)
    ensures |f| >= 4
    decreases |payload|
  {
    if |payload| < MAX then Header(|payload|, sequence) + payload
    else Header(MAX, sequence) + payload[..MAX] + Frames(Next(sequence), payload[MAX..])
  }

  /** The sequence number after a payload, which counts the chunks. */
  function After(sequence: Byte, payload: seq<Byte>): Byte
    decreases |payload|
  {
    if |payload| < MAX then Next(sequence) else After(Next(sequence), payload[MAX..])
  }

  lemma {:induction false} AfterCounts(sequence: Byte, payload: seq<Byte>)
    ensures After(sequence, payload) == (sequence + |payload| / MAX + 1) % 256
    decreases |payload|
  {
    if |payload| < MAX {
      ModUnique(|payload|, MAX, 0, |payload|);
    } else {
      AfterCounts(Next(sequence), payload[MAX..]);
      ModUnique(|payload|, MAX, (|payload| - MAX) / MAX + 1, (|payload| - MAX) % MAX);
    }
  }

  /** The first four bytes of a payload on the wire, and where a payload needs another chunk. */
  lemma FirstHeader(sequence: Byte, payload: seq<Byte>)
    ensures
      var f := Frames(sequence, payload);
      f[3] == sequence && if |payload| < 0xff_ffff then LittleEndian(f[..3]) == |payload| && f[4..] == payload
                          else f[..3] == [0xff, 0xff, 0xff] && f[4..4 + 0xff_ffff] == payload[..0xff_ffff]
  {
    var f := Frames(sequence, payload);
    if |payload| < 0xff_ffff {
      var h, n := f[..3], |payload|;
      DivDiv(n, 0x100, 0x100);
      ModUnique(n / 0x1_0000, 256, 0, n / 0x1_0000);
      assert LittleEndianFrom(h, 1) == At(h, 1) + 256 * LittleEndianFrom(h, 2);
      assert LittleEndianFrom(h, 2) == At(h, 2) + 256 * LittleEndianFrom(h, 3);
    }
  }

  /** The number in the first three bytes of a header. */
  function LengthOf(h: seq<Byte>): nat
    requires |h| >= 3
  {
    At(h, 0) + 0x100 * At(h, 1) + 0x1_0000 * At(h, 2)
  }

  /** What can be read from a stream, after some chunks of the same payload: the payload, and the rest of the stream. */
  function Parse(sequence: Byte, prev: seq<Byte>, s: seq<Byte>): (r: (Received, Byte, seq<Byte>))
    decreases |s|
  {
    if |s| < 4 then (Invalid, sequence, s)
    else if s[3] > sequence then (PktSyncMul, sequence, s[4..])
    else if s[3] < sequence then (PktSync, sequence, s[4..])
    else
      var n, q := LengthOf(s), Next(sequence);
      if n == 0 then (if prev == [] then Invalid else Payload(prev), q, s[4..])
      else if |s| < 4 + n then (Invalid, q, s[4..])
      else if n < MAX then (Payload(prev + s[4..4 + n]), q, s[4 + n..])
      else Parse(q, prev + s[4..4 + n], s[4 + n..])
  }

  lemma Stretch(s: seq<Byte>, m: nat, n: nat)
    requires m + n <= |s|
    ensures s[m..][..n] == s[m..m + n] && s[m..][n..] == s[m + n..]
  {
  }

  /** The definition of Parse, in terms of the header. */
  lemma ParseStep(sequence: Byte, prev: seq<Byte>, s: seq<Byte>)
    ensures
      var p := Parse(sequence, prev, s);
      if |s| < 4 then p.0.Invalid?
      else
        var h, q := s[..4], Next(sequence);
        var n := LengthOf(h);
        n == LengthOf(s) &&
        if h[3] > sequence then p == (PktSyncMul, sequence, s[4..])
        else if h[3] < sequence then p == (PktSync, sequence, s[4..])
        else if n == 0 then p == (if prev == [] then Invalid else Payload(prev), q, s[4..])
        else if |s| < 4 + n then p.0.Invalid?
        else if n < MAX then p == (Payload(prev + s[4..4 + n]), q, s[4 + n..])
        else p == Parse(q, prev + s[4..4 + n], s[4 + n..])
  {
  }

  lemma HeaderLength(n: nat, sequence: Byte)
    requires n <= MAX
    ensures LengthOf(Header(n, sequence)) == n
  {
    ModUnique(n / 256, 256, n / 0x1_0000, n / 256 % 256);
  }

  lemma LengthHeader(s: seq<Byte>)
    requires |s| >= 4
    ensures LengthOf(s) <= MAX && Header(LengthOf(s), s[3]) == s[..4]
  {
    var n := LengthOf(s);
    ModUnique(n, 256, At(s, 1) + 0x100 * At(s, 2), At(s, 0));
    ModUnique(n / 256, 256, At(s, 2), At(s, 1));
    ModUnique(n, 0x1_0000, At(s, 2), At(s, 0) + 0x100 * At(s, 1));
  }

  /**
    Whatever follows them, the frames of a payload are read as that payload, and no further. Only a lone empty
    payload is refused.
  */
  lemma {:induction false} ParseFrames(sequence: Byte, prev: seq<Byte>, payload: seq<Byte>, rest: seq<Byte>)
    ensures Parse(sequence, prev, Frames(sequence, payload) + rest)
         == (if prev + payload == [] then Invalid else Payload(prev + payload), After(sequence, payload), rest)
    decreases |payload|
  {
    var s := Frames(sequence, payload) + rest;
    var n := if |payload| < MAX then |payload| else MAX;
    var h := Header(n, sequence);
    HeaderLength(n, sequence);
    assert s[..4] == h;
    assert s[4..4 + n] == payload[..n];
    if |payload| < MAX {
      assert s[4 + n..] == rest;
      assert payload[..n] == payload;
      assert prev + [] == prev;
    } else {
      assert s[4 + n..] == Frames(Next(sequence), payload[MAX..]) + rest;
      ParseFrames(Next(sequence), prev + payload[..MAX], payload[MAX..], rest);
      assert prev + payload[..MAX] + payload[MAX..] == prev + payload;
    }
  }

  /** Whatever is read is framed in one way only: the bytes consumed are the frames of the payload. */
  lemma {:induction false} FramesParsed(sequence: Byte, prev: seq<Byte>, s: seq<Byte>)
    requires Parse(sequence, prev, s).0.Payload?
    ensures var (r, q, rest) := Parse(sequence, prev, s);
            prev <= r.data && r.data != [] && q == After(sequence, r.data[|prev|..]) &&
            s == Frames(sequence, r.data[|prev|..]) + rest
    decreases |s|
  {
    hide Header;
    hide LengthOf;
    hide Frames;
    hide After;
    hide Parse;
    ParseStep(sequence, prev, s);
    LengthHeader(s);
    var n := LengthOf(s);
    var data := Parse(sequence, prev, s).0.data;
    var chunk := if n == 0 then [] else s[4..4 + n];
    assert s == s[..4] + chunk + s[4 + n..];
    if n < MAX {
      assert data[|prev|..] == chunk;
      LastChunk(sequence, chunk);
    } else {
      FramesParsed(Next(sequence), prev + chunk, s[4 + n..]);
      FirstChunk(sequence, prev, chunk, data);
      Associate(s[..4] + chunk, Frames(Next(sequence), data[|prev + chunk|..]), Parse(sequence, prev, s).2);
    }
  }

  lemma LastChunk(sequence: Byte, chunk: seq<Byte>)
    requires |chunk| < MAX
    ensures Frames(sequence, chunk) == Header(|chunk|, sequence) + chunk && After(sequence, chunk) == Next(sequence)
  {
  }

  lemma FirstChunk(sequence: Byte, prev: seq<Byte>, chunk: seq<Byte>, data: seq<Byte>)
    requires prev + chunk <= data && |chunk| == MAX
    ensures Frames(sequence, data[|prev|..])
         == Header(MAX, sequence) + chunk + Frames(Next(sequence), data[|prev + chunk|..])
    ensures prev <= data && After(sequence, data[|prev|..]) == After(Next(sequence), data[|prev + chunk|..])
  {
    var payload := data[|prev|..];
    assert payload[..MAX] == chunk by {
      assert chunk == (prev + chunk)[|prev|..];
      assert (prev + chunk) == data[..|prev + chunk|];
    }
    assert payload[MAX..] == data[|prev + chunk|..];
  }

  // ---------------------------------------------------------------------------------------
  // Writing
  // ---------------------------------------------------------------------------------------

  /** The sending side of a connection, which takes a number of bytes before it fails. */
  class Wire {
    var sent: seq<Byte>
    var room: nat

    constructor (room: nat)
      ensures sent == [] && this.room == room
    {
      sent, this.room := [], room;
    }

    method Write(p: seq<Byte>) returns (n: nat, ok: bool)
      modifies this
      ensures n == Least(|p|, old(room)) && ok == (n == |p|)
      ensures sent == old(sent) + p[..n] && room == old(room) - n
    {
      n := Least(|p|, room);
      sent, room := sent + p[..n], room - n;
      ok := n == |p|;
    }
  }

  function Least(x: nat, y: nat): nat {
    if x < y then x else y
  }

  /** Room for a number of whole chunks of the largest size. */
  predicate WholeChunks(room: nat) {
    room % (MAX + 4) == 0
  }

  /** What becomes of a payload when the network takes room more bytes. */
  function Written(payload: nat, limit: int, frames: nat, room: nat): Outcome {
    if payload > limit then PktTooLarge
    else if frames <= room then Sent
    else if WholeChunks(room) then BadConnNoWrite
    else InvalidConn
  }

  lemma SentIfRoom(payload: nat, limit: int, frames: nat, room: nat)
    ensures var r := Written(payload, limit, frames, room);
            (r.PktTooLarge? <==> payload > limit) && (r.Sent? <==> payload <= limit && frames <= room)
  {
  }

  /** The first chunk of a payload with its header, and what is left of the payload. */
  function Chunk(sequence: Byte, payload: seq<Byte>): (c: seq<Byte>)
    ensures |c| == 4 + Least(|payload|, MAX)
  {
    var n := Least(|payload|, MAX);
    Header(n, sequence) + payload[..n]
  }

  lemma FramesByChunk(sequence: Byte, payload: seq<Byte>)
    ensures var f, c := Frames(sequence, payload), Chunk(sequence, payload);
            if |payload| < MAX then f == c && After(sequence, payload) == Next(sequence)
            else f == c + Frames(Next(sequence), payload[MAX..]) &&
                 After(sequence, payload) == After(Next(sequence), payload[MAX..])
  {
    if |payload| < MAX {
      assert payload[..|payload|] == payload;
    }
  }

  class Conn {
    const net: Wire
    const buf: Buffer
    const maxAllowedPacket: int
    var sequence: Byte
    var closed: bool

    constructor (net: Wire, buf: Buffer, maxAllowedPacket: int)
      ensures this.net == net && this.buf == buf && this.maxAllowedPacket == maxAllowedPacket
      ensures sequence == 0 && !closed
    {
      this.net, this.buf, this.maxAllowedPacket, sequence, closed := net, buf, maxAllowedPacket, 0, false;
    }

    /**
      Sends data[lo + 4..hi]. The four bytes from lo on are space for the header; the headers of further chunks
      overwrite payload that has been sent.
    */
    method WritePacket(data: array<Byte>, lo: nat, hi: nat) returns (r: Outcome)
      requires lo + 4 <= hi <= data.Length
      modifies data, net, this`sequence, this`closed
      ensures forall i :: (0 <= i < lo || hi <= i < data.Length) ==> data[i] == old(data[i])
      ensures
        var payload := old(data[lo + 4..hi]);
        var f := Frames(old(sequence), payload);
        var n := if r.PktTooLarge? then 0 else Least(|f|, old(net.room));
        && r == Written(|payload|, maxAllowedPacket, |f|, old(net.room))
        && net.sent == old(net.sent) + f[..n] && net.room == old(net.room) - n
        && (r.Sent? ==> sequence == After(old(sequence), payload))
        && closed == (old(closed) || r.InvalidConn?)
    {
      hide Header;
      hide Frames;
      hide Chunk;
      hide After;
      hide WholeChunks;
      var pktLen := hi - lo - 4;
      if pktLen > maxAllowedPacket {
        return PktTooLarge;
      }
      var at := lo;
      ghost var payload := data[lo + 4..hi];
      ghost var frames, room, was := Frames(sequence, payload), net.room, net.sent;
      ghost var done: seq<Byte> := [];
      AfterWholeChunks(0, 0);
      while true
        invariant lo <= at && pktLen == hi - at - 4 >= 0 && closed == old(closed)
        invariant forall i :: (0 <= i < lo || hi <= i < data.Length) ==> data[i] == old(data[i])
        invariant frames == done + Frames(sequence, data[at + 4..hi])
        invariant net.sent == was + done && net.room + |done| == room
        invariant WholeChunks(|done|)
        invariant After(old(sequence), payload) == After(sequence, data[at + 4..hi])
        decreases pktLen
      {
        ghost var left, q := data[at + 4..hi], sequence;
        var size, n, ok := WriteChunk(data, at, hi, pktLen);
        ghost var c := Chunk(q, left);
        FramesByChunk(q, left);
        AfterWholeChunks(|done|, n);
        Associate(was, done, c[..n]);
        if ok {
          sequence := (sequence + 1) % 256;
          assert c[..n] == c;
          if size != MAX {
            assert frames[..|frames|] == frames;
            return Sent;
          }
          pktLen := pktLen - size;
          at := at + size;
          assert data[at + 4..hi] == left[size..];
          Associate(done, c, Frames(sequence, data[at + 4..hi]));
          done := done + c;
          continue;
        }
        Cut(frames, done, c, n);
        if n == 0 && pktLen == hi - at - 4 {
          return BadConnNoWrite;
        }
        closed := true;
        return InvalidConn;
      }
    }

    /** Reads the chunks of one payload from the buffered network. */
    method ReadPacket() returns (r: Received)
      requires buf.Valid()
      modifies this`sequence, this`closed, buf, buf.nc, buf.dbuf
      ensures buf.Valid() && closed == (old(closed) || r.Invalid?)
      ensures
        var (p, q, rest) := Parse(old(sequence), [], old(buf.Pending()));
        && (r == p || (r.Invalid? && buf.nc.failed))
        && (r == p && !r.Invalid? ==> sequence == q && buf.Pending() == rest)
    {
      hide Parse;
      ghost var parsed := Parse(sequence, [], buf.Pending());
      var prevData: seq<Byte> := [];
      while true
        invariant buf.Valid() && closed == old(closed)
        invariant buf.dbuf[0] == old(buf.dbuf[0]) || fresh(buf.dbuf[0])
        invariant buf.dbuf[1] == old(buf.dbuf[1]) || fresh(buf.dbuf[1])
        invariant parsed == Parse(sequence, prevData, buf.Pending())
        decreases |buf.Pending()|
      {
        var done;
        done, r, prevData := ReadChunk(prevData);
        if done {
          return;
        }
      }
    }

    /** Reads one chunk behind those that prevData has collected. */
    method ReadChunk(prevData: seq<Byte>) returns (done: bool, r: Received, data: seq<Byte>)
      requires buf.Valid()
      modifies this`sequence, this`closed, buf, buf.nc, buf.dbuf
      ensures buf.Valid()
      ensures buf.dbuf[0] == old(buf.dbuf[0]) || fresh(buf.dbuf[0])
      ensures buf.dbuf[1] == old(buf.dbuf[1]) || fresh(buf.dbuf[1])
      ensures done ==>
        var (p, q, rest) := Parse(old(sequence), prevData, old(buf.Pending()));
        && closed == (old(closed) || r.Invalid?) && (r == p || (r.Invalid? && buf.nc.failed))
        && (r == p && !r.Invalid? ==> sequence == q && buf.Pending() == rest)
      ensures !done ==>
        && closed == old(closed) && |buf.Pending()| < |old(buf.Pending())|
        && Parse(old(sequence), prevData, old(buf.Pending())) == Parse(sequence, data, buf.Pending())
    {
      hide Parse;
      hide LengthOf;
      hide Buffer.Pending;
      ghost var pending := buf.Pending();
      ParseStep(sequence, prevData, pending);
      var ok;
      r := Invalid;
      ok, data := buf.ReadBytes(4);
      if !ok {
        closed := true;
        return true, Invalid, data;
      }
      var pktLen := LengthOf(data);
      if data[3] != sequence {
        return true, if data[3] > sequence then PktSyncMul else PktSync, data;
      }
      sequence := (sequence + 1) % 256;
      if pktLen == 0 {
        closed := closed || prevData == [];
        return true, if prevData == [] then Invalid else Payload(prevData), data;
      }
      ok, data := buf.ReadBytes(pktLen);
      if !ok {
        closed := true;
        return true, Invalid, data;
      }
      Stretch(pending, 4, pktLen);
      return pktLen < MAX, Payload(prevData + data), prevData + data;
    }

    /** Writes the header of the next chunk in front of it, and sends both. */
    method WriteChunk(data: array<Byte>, at: nat, hi: nat, pktLen: nat) returns (size: nat, n: nat, ok: bool)
      requires at + 4 <= hi <= data.Length && pktLen == hi - at - 4
      modifies data, net
      ensures size == Least(pktLen, MAX) && data[at + 4..hi] == old(data[at + 4..hi])
      ensures forall i :: (0 <= i < at || at + 4 <= i < data.Length) ==> data[i] == old(data[i])
      ensures
        var c := Chunk(sequence, old(data[at + 4..hi]));
        && n == Least(|c|, old(net.room)) && ok == (n == |c|)
        && net.sent == old(net.sent) + c[..n] && net.room == old(net.room) - n
    {
      ghost var left := data[at + 4..hi];
      size := PutHeader(data, at, pktLen);
      assert data[at + 4..hi] == left;
      assert data[at + 4..at + 4 + size] == data[at + 4..hi][..size];
      assert data[at..at + 4 + size] == data[at..at + 4] + data[at + 4..at + 4 + size];
      n, ok := net.Write(data[at..at + 4 + size]);
    }

    method PutHeader(data: array<Byte>, at: nat, pktLen: nat) returns (size: nat)
      requires at + 4 <= data.Length
      modifies data
      ensures size == Least(pktLen, MAX) && data[at..at + 4] == Header(size, sequence)
      ensures forall i :: (0 <= i < at || at + 4 <= i < data.Length) ==> data[i] == old(data[i])
    {
      if pktLen >= MAX {
        data[at], data[at + 1], data[at + 2] := 0xff, 0xff, 0xff;
        size := MAX;
      } else {
        data[at], data[at + 1], data[at + 2] := pktLen % 256, pktLen / 256 % 256, pktLen / 0x1_0000 % 256;
        size := pktLen;
      }
      data[at + 3] := sequence;
    }
  }

  /** Part of a chunk after whole ones is a part of all. */
  lemma Cut(frames: seq<Byte>, done: seq<Byte>, c: seq<Byte>, n: nat)
    requires done + c <= frames && n <= |c|
    ensures frames[..|done| + n] == done + c[..n]
  {
    assert frames[..|done| + |c|] == done + c;
  }

  lemma AfterWholeChunks(done: nat, n: nat)
    requires WholeChunks(done) && n <= MAX + 4
    ensures WholeChunks(done + n) == (n == 0 || n == MAX + 4)
  {
    if n < MAX + 4 {
      ModUnique(done + n, MAX + 4, done / (MAX + 4), n);
    } else {
      ModUnique(done + n, MAX + 4, done / (MAX + 4) + 1, 0);
    }
  }

  // ---------------------------------------------------------------------------------------
  // Connections that can be retried
  // ---------------------------------------------------------------------------------------

  lemma {:induction false} FramesSize(sequence: Byte, payload: seq<Byte>)
    ensures |Frames(sequence, payload)| == |payload| + 4 * (|payload| / MAX + 1)
    decreases |payload|
  {
    if |payload| >= MAX {
      FramesSize(Next(sequence), payload[MAX..]);
      ModUnique(|payload|, MAX, (|payload| - MAX) / MAX + 1, (|payload| - MAX) % MAX);
    }
  }

  /**
    BadConnNoWrite is meant for connections on which nothing was written. It keeps that promise, whatever the
    network does, exactly for payloads of one chunk: the test for the first chunk is true for all of them.
  */
  lemma NoWriteWrittenNothing(payload: seq<Byte>, sequence: Byte, limit: nat)
    requires |payload| <= limit
    ensures (forall room: nat ::
              Written(|payload|, limit, |Frames(sequence, payload)|, room).BadConnNoWrite? ==> room == 0)
         <==> |payload| < MAX
  {
    var n := |Frames(sequence, payload)|;
    FramesSize(sequence, payload);
    if |payload| < MAX {
      ModUnique(|payload|, MAX, 0, |payload|);
      forall room: nat | Written(|payload|, limit, n, room).BadConnNoWrite? ensures room == 0 {
        ModUnique(room, MAX + 4, 0, room);
      }
    } else {
      assert Written(|payload|, limit, n, MAX + 4).BadConnNoWrite?;
    }
  }

  // ---------------------------------------------------------------------------------------
  // From one connection to another
  // ---------------------------------------------------------------------------------------

  method Send(data: array<Byte>, maxAllowedPacket: int, room: nat) returns (outcome: Outcome, sent: seq<Byte>)
    requires data.Length >= 4
    modifies data
    ensures
      var payload := old(data[4..]);
      && outcome == Written(|payload|, maxAllowedPacket, |Frames(0, payload)|, room)
      && (outcome.Sent? ==> sent == Frames(0, payload))
  {
    hide Frames;
    hide Written;
    var wire := new Wire(room);
    var idle := new Net([]);
    var unused := new Buffer(idle);
    var mc := new Conn(wire, unused, maxAllowedPacket);
    ghost var payload := data[4..];
    ghost var f := Frames(0, payload);
    assert data[0 + 4..data.Length] == payload;
    SentIfRoom(|payload|, maxAllowedPacket, |f|, room);
    assert f[..|f|] == f;
    outcome := mc.WritePacket(data, 0, data.Length);
    sent := wire.sent;
  }

  method Receive(stream: seq<Byte>) returns (received: Received, failed: bool)
    ensures !failed ==> received == Parse(0, [], stream).0
  {
    hide Parse;
    var wire := new Wire(0);
    var net := new Net(stream);
    var buffer := new Buffer(net);
    var mc := new Conn(wire, buffer, 0);
    received := mc.ReadPacket();
    failed := net.failed;
  }

  /**
    A payload that one connection has sent is what another receives, in pieces of any size, unless the network
    fails; only the empty payload is refused.
  */
  method Transmit(data: array<Byte>, maxAllowedPacket: int, room: nat)
    returns (outcome: Outcome, received: Received, failed: bool)
    requires data.Length >= 4
    modifies data
    ensures
      var payload := old(data[4..]);
      && outcome == Written(|payload|, maxAllowedPacket, |Frames(0, payload)|, room)
      && (outcome.Sent? && !failed ==> received == if payload == [] then Invalid else Payload(payload))
  {
    hide Frames;
    hide Parse;
    hide Written;
    ghost var payload := data[4..];
    var sent;
    outcome, sent := Send(data, maxAllowedPacket, room);
    received, failed := Receive(sent);
    ParseFrames(0, [], payload, []);
    assert Frames(0, payload) + [] == Frames(0, payload) && [] + payload == payload;
  }

  // ---------------------------------------------------------------------------------------
  // Long data
  // ---------------------------------------------------------------------------------------

  const SEND_LONG_DATA: Byte := 0x18
  const DATA_OFFSET := 7 // command, statement and parameter

  /** COM_STMT_SEND_LONG_DATA for a statement and a parameter, with a piece of its data. */
  function Command(id: nat, param: nat, data: seq<Byte>): (c: seq<Byte>)
    ensures |c| == DATA_OFFSET + |data| && c[DATA_OFFSET..] == data
  {
    [SEND_LONG_DATA, id % 256, id / 0x100 % 256, id / 0x1_0000 % 256, id / 0x100_0000 % 256,
     param % 256, param / 0x100 % 256] + data
  }

  /** The commands on the wire, each with its own sequence of packets, with at most piece bytes of data each. */
  function LongData(id: nat, param: nat, arg: seq<Byte>, piece: int): seq<Byte>
    requires arg == [] || piece > 0
  {
    if arg == [] then []
    else
      var n := Least(|arg|, piece);
      Frames(0, Command(id, param, arg[..n])) + LongData(id, param, arg[n..], piece)
  }

  datatype Argument =
    | Argument(id: nat, param: nat, data: seq<Byte>)
    | Nothing
    | Malformed

  /** A command as a server reads it: 0x18, four bytes of the statement, two of the parameter, and data. */
  function ReadCommand(c: seq<Byte>): Argument {
    if |c| < 7 || c[0] != 0x18 then Malformed else Argument(LittleEndian(c[1..5]), LittleEndian(c[5..7]), c[7..])
  }

  /** What a server that appends the data for one parameter of one statement has after reading all commands. */
  function Collected(s: seq<Byte>): (r: Argument)
    decreases |s|
  {
    if s == [] then Nothing
    else
      var (p, _, rest) := Parse(0, [], s);
      if !p.Payload? || |rest| >= |s| then Malformed
      else
        match ReadCommand(p.data)
        case Argument(id, param, data) =>
          (match Collected(rest)
           case Nothing => Argument(id, param, data)
           case Argument(id', param', more) =>
             if id' == id && param' == param then Argument(id, param, data + more) else Malformed
           case Malformed => Malformed)
        case _ => Malformed
  }

  /** A server gets the numbers of statement and parameter, and the pieces put together again are the argument. */
  lemma {:induction false} LongDataCollected(id: nat, param: nat, arg: seq<Byte>, piece: int)
    requires id < 0x1_0000_0000 && param < 0x1_0000 && (arg == [] || piece > 0)
    ensures Collected(LongData(id, param, arg, piece)) == if arg == [] then Nothing else Argument(id, param, arg)
    decreases |arg|
  {
    hide Frames;
    hide Command;
    hide Collected;
    hide LongData;
    if arg == [] {
      NoPiece(id, param, piece);
      NothingCollected();
    } else {
      NextPiece(id, param, arg, piece);
      var n := Least(|arg|, piece);
      var tail := arg[n..];
      LongDataCollected(id, param, tail, piece);
      CollectCommand(id, param, arg[..n], LongData(id, param, tail, piece));
      assert arg[..n] + tail == arg;
    }
  }

  lemma NothingCollected()
    ensures Collected([]) == Nothing
  {
  }

  lemma CollectCommand(id: nat, param: nat, data: seq<Byte>, rest: seq<Byte>)
    requires id < 0x1_0000_0000 && param < 0x1_0000
    ensures
      var s := Frames(0, Command(id, param, data)) + rest;
      match Collected(rest)
      case Nothing => Collected(s) == Argument(id, param, data)
      case Argument(i, p, more) => i == id && p == param ==> Collected(s) == Argument(id, param, data + more)
      case Malformed => true
  {
    hide Frames;
    hide Parse;
    hide Command;
    hide ReadCommand;
    hide After;
    var c := Command(id, param, data);
    CommandRead(id, param, data);
    ParseFrames(0, [], c, rest);
    assert [] + c == c;
  }

  /** The header of a command, read back. */
  lemma CommandRead(id: nat, param: nat, data: seq<Byte>)
    requires id < 0x1_0000_0000 && param < 0x1_0000
    ensures ReadCommand(Command(id, param, data)) == Argument(id, param, data)
    ensures |Command(id, param, data)| >= 7
  {
    var c := Command(id, param, data);
    var i, p := c[1..5], c[5..7];
    FourLittle(id);
    FourBytes(i, 0);
    ModUnique(param / 0x100, 256, 0, param / 0x100);
    assert LittleEndian(p) == At(p, 0) + 256 * LittleEndianFrom(p, 1);
    assert LittleEndianFrom(p, 1) == At(p, 1) + 256 * LittleEndianFrom(p, 2);
  }

  /** The first command has as much data as there is, or as the limit allows. */
  lemma FirstCommand(id: nat, param: nat, arg: seq<Byte>, limit: int)
    requires arg != [] && limit > 8
    ensures
      var p := Parse(0, [], LongData(id, param, arg, limit - 8)).0;
      p.Payload? && |p.data| == if 7 + |arg| < limit - 1 then 7 + |arg| else limit - 1
  {
    hide Frames;
    hide Parse;
    hide LongData;
    NextPiece(id, param, arg, limit - 8);
    var n := Least(|arg|, limit - 8);
    var c := Command(id, param, arg[..n]);
    ParseFrames(0, [], c, LongData(id, param, arg[n..], limit - 8));
    assert [] + c == c;
  }

  lemma FourLittle(n: nat)
    requires n < 0x1_0000_0000
    ensures n == n % 256 + 256 * (n / 0x100 % 256 + 256 * (n / 0x1_0000 % 256 + 256 * (n / 0x100_0000 % 256)))
  {
    DivDiv(n, 0x100, 0x100);
    DivDiv(n, 0x1_0000, 0x100);
    ModUnique(n / 0x100_0000, 256, 0, n / 0x100_0000);
  }

  /** The length of the next command for an argument of which argLen bytes are left. */
  function PktLen(argLen: nat, limit: int): int {
    if DATA_OFFSET + argLen < limit - 1 then DATA_OFFSET + argLen else limit - 1
  }

  datatype Ending = Returned(outcome: Outcome) | Panicked

  /**
    What is sent for the bytes that are left of an argument, over a network that takes room more bytes, and how this
    ends. A command has to have room for a header in front, and to be long enough to go on behind it.
  */
  function Sending(id: nat, param: nat, left: seq<Byte>, limit: int, room: nat): (seq<Byte>, Ending)
    decreases |left|, room
  {
    if left == [] then ([], Returned(Sent))
    else
      var pktLen := PktLen(|left|, limit);
      if pktLen < 0 then ([], Panicked)
      else
        var next := Frames(0, Command(id, param, left)[..pktLen]);
        var o := Written(pktLen, limit, |next|, room);
        if !o.Sent? then (next[..Least(|next|, room)], Returned(o))
        else if pktLen < DATA_OFFSET then (next, Panicked)
        else
          var (more, e) := Sending(id, param, left[pktLen - DATA_OFFSET..], limit, room - |next|);
          (next + more, e)
  }

  /** The definition of Sending for one turn. */
  lemma NextSending(id: nat, param: nat, left: seq<Byte>, limit: int, room: nat)
    requires left != []
    ensures
      var (bytes, e) := Sending(id, param, left, limit, room);
      var pktLen := PktLen(|left|, limit);
      if pktLen < 0 then bytes == [] && e == Panicked
      else
        var next := Frames(0, Command(id, param, left)[..pktLen]);
        var o := Written(pktLen, limit, |next|, room);
        && o.Sent? == (|next| <= room) && !o.PktTooLarge?
        && if !o.Sent? then bytes == next[..room] && e == Returned(o)
           else if pktLen < DATA_OFFSET then bytes == next && e == Panicked
           else
             var (more, e') := Sending(id, param, left[pktLen - DATA_OFFSET..], limit, room - |next|);
             bytes == next + more && e == e'
  {
    hide Frames;
    hide Command;
  }

  lemma NothingLeft(id: nat, param: nat, limit: int, room: nat)
    ensures Sending(id, param, [], limit, room) == ([], Returned(Sent))
  {
  }

  /** With room for data in every command, what is sent are the commands, as far as the network takes them. */
  lemma {:induction false} SendingIsLongData(id: nat, param: nat, left: seq<Byte>, limit: int, room: nat)
    requires left == [] || limit > DATA_OFFSET + 1
    ensures
      var f := LongData(id, param, left, limit - 1 - DATA_OFFSET);
      var (bytes, e) := Sending(id, param, left, limit, room);
      e.Returned? && e.outcome.Sent? == (|f| <= room) && bytes == f[..Least(|f|, room)]
    decreases |left|
  {
    hide Frames;
    hide Command;
    hide Written;
    hide LongData;
    hide Sending;
    var piece := limit - 1 - DATA_OFFSET;
    if left == [] {
      NothingLeft(id, param, limit, room);
      NoPiece(id, param, piece);
    } else {
      NextSending(id, param, left, limit, room);
      NextPiece(id, param, left, piece);
      var n := Least(|left|, piece);
      var next := Frames(0, Command(id, param, left[..n]));
      CommandCut(id, param, left, n);
      SentIfRoom(DATA_OFFSET + n, limit, |next|, room);
      if |next| <= room {
        SendingIsLongData(id, param, left[n..], limit, room - |next|);
        CutBehind(next, LongData(id, param, left[n..], piece), room);
      }
    }
  }

  lemma CutBehind(next: seq<Byte>, f: seq<Byte>, room: nat)
    requires |next| <= room
    ensures next + f[..Least(|f|, room - |next|)] == (next + f)[..Least(|next + f|, room)]
  {
  }

  lemma CommandCut(id: nat, param: nat, left: seq<Byte>, n: nat)
    requires n <= |left|
    ensures Command(id, param, left)[..DATA_OFFSET + n] == Command(id, param, left[..n])
  {
  }

  /** Commands without data. */
  function Empty(id: nat, param: nat, turns: nat): seq<Byte> {
    if turns == 0 then [] else Frames(0, Command(id, param, [])) + Empty(id, param, turns - 1)
  }

  lemma {:induction false} EmptySize(id: nat, param: nat, turns: nat)
    ensures |Empty(id, param, turns)| >= turns
  {
    if turns > 0 {
      EmptySize(id, param, turns - 1);
    }
  }

  /** With room for a command but not for data, commands without data fill the network, however much it takes. */
  lemma {:induction false} SendingWithoutData(id: nat, param: nat, left: seq<Byte>, room: nat)
    requires left != []
    ensures
      var (bytes, e) := Sending(id, param, left, DATA_OFFSET + 1, room);
      && e.Returned? && !e.outcome.Sent? && |bytes| == room
      && bytes <= Empty(id, param, room)
    decreases room
  {
    hide Frames;
    hide Command;
    hide Written;
    hide Sending;
    NextSending(id, param, left, DATA_OFFSET + 1, room);
    CommandCut(id, param, left, 0);
    EmptySize(id, param, room);
    var next := Frames(0, Command(id, param, []));
    SentIfRoom(DATA_OFFSET, DATA_OFFSET + 1, |next|, room);
    if |next| <= room {
      SendingWithoutData(id, param, left, room - |next|);
      EmptyGrows(id, param, room - |next|, room - 1);
      var bytes := Sending(id, param, left, DATA_OFFSET + 1, room - |next|).0;
      assert bytes <= Empty(id, param, room - 1);
      assert next + bytes <= next + Empty(id, param, room - 1);
    }
  }

  lemma {:induction false} EmptyGrows(id: nat, param: nat, m: nat, n: nat)
    requires m <= n
    ensures Empty(id, param, m) <= Empty(id, param, n)
  {
    hide Frames;
    hide Command;
    if m > 0 {
      EmptyGrows(id, param, m - 1, n - 1);
    }
  }

  /** Without room for a command, the first packet is a piece of one, if anything, and the program panics behind it. */
  lemma SendingPanics(id: nat, param: nat, left: seq<Byte>, limit: int, room: nat)
    requires left != [] && limit <= DATA_OFFSET
    ensures
      var (bytes, e) := Sending(id, param, left, limit, room);
      if limit <= 0 then bytes == [] && e == Panicked
      else
        var packet := Frames(0, Command(id, param, [])[..limit - 1]);
        && bytes == packet[..Least(|packet|, room)]
        && if |packet| <= room then e == Panicked else e.Returned? && !e.outcome.Sent?
  {
    hide Frames;
    hide Command;
    hide Written;
    hide Sending;
    NextSending(id, param, left, limit, room);
    if limit > 0 {
      CommandCut(id, param, left, 0);
      assert Command(id, param, left)[..limit - 1] == Command(id, param, left)[..DATA_OFFSET][..limit - 1];
    }
  }

  /** An argument gets through some network exactly if it is empty or every command has room for data. */
  lemma DataArrives(id: nat, param: nat, arg: seq<Byte>, limit: int)
    ensures (exists room: nat :: Sending(id, param, arg, limit, room).1 == Returned(Sent)) <==> arg == [] || limit > 8
  {
    hide Sending;
    hide Command;
    hide Frames;
    if arg == [] || limit > DATA_OFFSET + 1 {
      var room := |LongData(id, param, arg, limit - 1 - DATA_OFFSET)|;
      SendingIsLongData(id, param, arg, limit, room);
    } else {
      forall room: nat
        ensures Sending(id, param, arg, limit, room).1 != Returned(Sent)
      {
        if limit == DATA_OFFSET + 1 {
          SendingWithoutData(id, param, arg, room);
        } else {
          SendingPanics(id, param, arg, limit, room);
        }
      }
    }
  }

  // ---------------------------------------------------------------------------------------
  // The loop on a network that never fails
  // ---------------------------------------------------------------------------------------

  datatype Advance = To(argLen: nat) | Fault

  /** One turn of the loop, by the number of bytes that are left; a negative advance is a fault. */
  function Turn(argLen: nat, limit: int): Advance {
    var pktLen := PktLen(argLen, limit);
    if pktLen < DATA_OFFSET then Fault else To(argLen - (pktLen - DATA_OFFSET))
  }

  /** The loop comes to its end within so many turns. */
  predicate Ends(argLen: nat, limit: int, turns: nat) {
    argLen == 0 ||
    (turns > 0 && Turn(argLen, limit).To? && Ends(Turn(argLen, limit).argLen, limit, turns - 1))
  }

  lemma {:induction false} EndsWithRoom(argLen: nat, limit: int)
    requires argLen == 0 || limit > DATA_OFFSET + 1
    ensures Ends(argLen, limit, argLen)
  {
    if argLen > 0 {
      var next := Turn(argLen, limit).argLen;
      EndsWithRoom(next, limit);
      EndsLater(next, limit, next, argLen - 1);
    }
  }

  lemma {:induction false} EndsLater(argLen: nat, limit: int, turns: nat, more: nat)
    requires Ends(argLen, limit, turns) && turns <= more
    ensures Ends(argLen, limit, more)
    decreases turns
  {
    if argLen > 0 {
      EndsLater(Turn(argLen, limit).argLen, limit, turns - 1, more - 1);
    }
  }

  /** At the smallest limit that does not fault a turn changes nothing; below it every turn is a fault. */
  lemma {:induction false} NeverEnds(argLen: nat, limit: int, turns: nat)
    requires argLen > 0 && limit <= 8
    ensures Turn(argLen, limit) == if limit == 8 then To(argLen) else Fault
    ensures !Ends(argLen, limit, turns)
  {
    if turns > 0 {
      NeverEnds(argLen, limit, turns - 1);
    }
  }

  lemma LoopEnds(argLen: nat, limit: int)
    ensures (exists turns: nat :: Ends(argLen, limit, turns)) <==> argLen == 0 || limit > 8
  {
    hide Ends;
    if argLen == 0 || limit > DATA_OFFSET + 1 {
      EndsWithRoom(argLen, limit);
      assert exists turns: nat :: Ends(argLen, limit, turns);
    } else {
      forall turns: nat ensures !Ends(argLen, limit, turns) {
        NeverEnds(argLen, limit, turns);
      }
    }
  }

  /** What is left to be sent comes behind what has been sent. */
  ghost predicate Continues(id: nat, param: nat, left: seq<Byte>, limit: int, room: nat, done: seq<Byte>,
    bytes: seq<Byte>, ending: Ending)
  {
    var (more, e) := Sending(id, param, left, limit, room);
    bytes == done + more && ending == e
  }

  /** The body of the loop, up to the changes for the next turn. */
  method SendTurn(mc: Conn, data: array<Byte>, at: nat, argLen: nat, pktLen: int, id: nat, param: nat,
    ghost was: seq<Byte>, ghost done: seq<Byte>, ghost bytes: seq<Byte>, ghost ending: Ending)
    returns (stops: bool, r: Ending, ghost done': seq<Byte>)
    requires argLen > 0 && at + 11 + argLen == data.Length && pktLen == PktLen(argLen, mc.maxAllowedPacket)
    requires Continues(id, param, data[at + 11..], mc.maxAllowedPacket, mc.net.room, done, bytes, ending)
    requires mc.net.sent == was + done
    modifies mc`sequence, mc`closed, mc.net, data
    ensures mc.net.room + |mc.net.sent| == old(mc.net.room + |mc.net.sent|)
    ensures stops ==> r == ending && r != Returned(Sent) && mc.net.sent == was + bytes
    ensures !stops ==>
      && Turn(argLen, mc.maxAllowedPacket) == To(argLen - (pktLen - DATA_OFFSET)) && mc.net.sent == was + done'
      && mc.net.room < old(mc.net.room)
      && Continues(id, param, data[at + pktLen + 4..], mc.maxAllowedPacket, mc.net.room, done', bytes, ending)
  {
    hide Frames;
    hide Command;
    hide Sending;
    hide Written;
    ghost var left := data[at + 11..];
    r, done' := Panicked, done;
    NextSending(id, param, left, mc.maxAllowedPacket, mc.net.room);
    if pktLen < 0 {
      Behind(was, done, [], []);
      return true, r, done'; // no room for the header, or a slice out of range
    }
    ghost var next := Frames(0, Command(id, param, left)[..pktLen]);
    Associate(was, done, next[..Least(|next|, mc.net.room)]);
    var outcome := SendPiece(mc, data, at, pktLen, id, param);
    if !outcome.Sent? {
      return true, Returned(outcome), done';
    }
    Behind(was, done, next, []);
    if pktLen < DATA_OFFSET {
      return true, r, done'; // data[pktLen - dataOffset:] is out of range
    }
    assert data[at + pktLen + 4..] == left[pktLen - DATA_OFFSET..];
    Behind(was, done, next, Sending(id, param, left[pktLen - DATA_OFFSET..], mc.maxAllowedPacket, mc.net.room).0);
    done' := done + next;
    stops := false;
  }

  /** Sends an argument in commands of at most maxAllowedPacket - 1 bytes, all from one buffer. */
  method WriteCommandLongData(mc: Conn, id: nat, param: nat, arg: seq<Byte>) returns (r: Ending)
    modifies mc`sequence, mc`closed, mc.net
    ensures
      var (bytes, ending) := Sending(id, param, arg, mc.maxAllowedPacket, old(mc.net.room));
      r == ending && mc.net.sent == old(mc.net.sent) + bytes && mc.net.room == old(mc.net.room) - |bytes|
    ensures arg == [] || mc.maxAllowedPacket > DATA_OFFSET + 1 ==>
      var f := LongData(id, param, arg, mc.maxAllowedPacket - 1 - DATA_OFFSET);
      var room := old(mc.net.room);
      && r.Returned? && r.outcome.Sent? == (|f| <= room)
      && mc.net.sent == old(mc.net.sent) + f[..Least(|f|, room)]
    ensures r == Returned(Sent) ==> mc.sequence == 0
  {
    hide Frames;
    hide Command;
    hide LongData;
    hide Sending;
    if arg == [] || mc.maxAllowedPacket > DATA_OFFSET + 1 {
      SendingIsLongData(id, param, arg, mc.maxAllowedPacket, mc.net.room);
    }
    var maxLen := mc.maxAllowedPacket - 1;
    var pktLen := maxLen;
    var data := new Byte[4 + 1 + 4 + 2 + |arg|](_ => 0);
    forall i | 0 <= i < |arg| {
      data[4 + DATA_OFFSET + i] := arg[i];
    }
    var at, argLen := 0, |arg|;
    ghost var (bytes, ending) := Sending(id, param, arg, mc.maxAllowedPacket, mc.net.room);
    ghost var room, was, done: seq<Byte> := mc.net.room, mc.net.sent, [];
    assert data[11..] == arg;
    while argLen > 0
      invariant 0 <= argLen <= |arg| && at + 11 + argLen == data.Length
      invariant Continues(id, param, data[at + 11..], mc.maxAllowedPacket, mc.net.room, done, bytes, ending)
      invariant mc.net.sent == was + done && mc.net.room + |done| == room
      invariant pktLen == maxLen || argLen == 0
      decreases argLen, mc.net.room
    {
      if DATA_OFFSET + argLen < maxLen {
        pktLen := DATA_OFFSET + argLen;
      }
      var stops;
      stops, r, done := SendTurn(mc, data, at, argLen, pktLen, id, param, was, done, bytes, ending);
      if stops {
        return;
      }
      at := at + pktLen - DATA_OFFSET;
      argLen := argLen - (pktLen - DATA_OFFSET);
    }
    assert data[at + 11..] == [];
    Behind(was, done, [], []);
    NothingLeft(id, param, mc.maxAllowedPacket, mc.net.room);
    mc.sequence := 0;
    return Returned(Sent);
  }

  lemma NextPiece(id: nat, param: nat, arg: seq<Byte>, piece: nat)
    requires piece > 0 && arg != []
    ensures LongData(id, param, arg, piece)
         == Frames(0, Command(id, param, arg[..Least(|arg|, piece)]))
            + LongData(id, param, arg[Least(|arg|, piece)..], piece)
  {
  }

  lemma NoPiece(id: nat, param: nat, piece: int)
    ensures LongData(id, param, [], piece) == []
  {
  }

  lemma Behind(was: seq<Byte>, done: seq<Byte>, next: seq<Byte>, more: seq<Byte>)
    ensures was + done + next[..|next|] == was + (done + next) && done + (next + more) == done + next + more
    ensures done + [] == done && next[..|next|] == next
  {
  }

  lemma Inside(s: seq<Byte>, i: nat, j: nat, n: nat)
    requires i + n <= j <= |s|
    ensures s[i..j][..n] == s[i..i + n]
  {
  }

  /** Sends the first pktLen bytes of a command with the data that is left. */
  method SendPiece(mc: Conn, data: array<Byte>, at: nat, pktLen: nat, id: nat, param: nat) returns (r: Outcome)
    requires at + 11 <= data.Length && at + 4 + pktLen <= data.Length
    modifies mc`sequence, mc`closed, mc.net, data
    ensures forall i :: at + 11 <= i < data.Length && at + 4 + pktLen <= i ==> data[i] == old(data[i])
    ensures
      var next := Frames(0, Command(id, param, old(data[at + 11..]))[..pktLen]);
      var room := old(mc.net.room);
      var n := if r.PktTooLarge? then 0 else Least(|next|, room);
      && r == Written(pktLen, mc.maxAllowedPacket, |next|, room)
      && mc.net.sent == old(mc.net.sent) + next[..n] && mc.net.room == room - n
  {
    hide Frames;
    hide Command;
    hide Written;
    hide After;
    ghost var left := data[at + 11..];
    mc.sequence := 0;
    assert data[at + 11..at + 11 + |left|] == left;
    PutCommand(data, at + 4, id, param, |left|);
    assert data[at + 4..at + 11 + |left|] == Command(id, param, left);
    Inside(data[..], at + 4, at + 11 + |left|, pktLen);
    r := mc.WritePacket(data, at, at + 4 + pktLen);
  }

  /** Puts the fields of a command in front of the next n bytes of data. */
  method PutCommand(data: array<Byte>, at: nat, id: nat, param: nat, ghost n: nat)
    requires at + DATA_OFFSET + n <= data.Length
    modifies data
    ensures forall i :: at + DATA_OFFSET <= i < data.Length ==> data[i] == old(data[i])
    ensures data[at..at + DATA_OFFSET + n] == Command(id, param, old(data[at + DATA_OFFSET..at + DATA_OFFSET + n]))
  {
    data[at] := SEND_LONG_DATA;
    data[at + 1], data[at + 2], data[at + 3], data[at + 4] :=
      id % 256, id / 0x100 % 256, id / 0x1_0000 % 256, id / 0x100_0000 % 256;
    data[at + 5], data[at + 6] := param % 256, param / 0x100 % 256;
  }
}
