/** The double-buffered reader of a MySQL connection (buffer.go). */
module MySqlBuffer {
  import opened Bits

  const DEFAULT_SIZE := 4096
  const MAX_CACHED := 256 * 1024

  datatype Error = None | EOF | Failed

  /** The network side of a connection: the bytes that are still to come, in pieces of any size. */
  class Net {
    var incoming: seq<Byte>
    var failed: bool

    constructor (incoming: seq<Byte>)
      ensures this.incoming == incoming && !failed
    {
      this.incoming, failed := incoming, false;
    }

    /**
      Fills p from position n on with at least one and at most all of the bytes to come. It reports the end
      of the stream only there, but possibly along with its last bytes, and it can fail at any time.
    */
    method Read(p: array<Byte>, n: nat) returns (nn: nat, err: Error)
      requires n < p.Length
      modifies this, p
      ensures nn <= |old(incoming)| && n + nn <= p.Length
      ensures incoming == old(incoming)[nn..] && p[..n + nn] == old(p[..n]) + old(incoming)[..nn]
      ensures p[n + nn..] == old(p[n + nn..])
      ensures err.None? ==> nn >= 1
      ensures err.EOF? ==> incoming == []
      ensures failed == (old(failed) || err.Failed?)
    {
      if * {
        nn, err := 0, Failed;
        failed := true;
        return;
      }
      if incoming == [] {
        return 0, EOF;
      }
      nn :| 1 <= nn <= |incoming| && n + nn <= p.Length;
      forall i | n <= i < n + nn {
        p[i] := incoming[i - n];
      }
      incoming := incoming[nn..];
      err := None;
      if * {
        err := Failed;
        failed := true;
      } else if * {
        err := if incoming == [] then EOF else None;
      }
    }

    /** Reads on from position start until there are need bytes. */
    method ReadAtLeast(p: array<Byte>, start: nat, need: nat) returns (n: nat, ok: bool)
      requires start < need <= p.Length
      modifies this, p
      ensures start <= n <= p.Length && p[n..] == old(p[..])[n..]
      ensures p[..n] + incoming == old(p[..start] + incoming)
      ensures old(failed) ==> failed
      ensures ok ==> need <= n
      ensures !ok ==> n + |incoming| < need || failed
      ensures !ok && !failed ==> incoming == []
    {
      n := start;
      while true
        invariant start <= n < need
        invariant p[..n] + incoming == old(p[..start] + incoming) && p[n..] == old(p[..])[n..]
        invariant old(failed) ==> failed
        decreases |incoming|
      {
        ghost var before, rest, last := p[..n], incoming, p[n..];
        var nn, err := Read(p, n);
        assert p[n + nn..] == last[nn..];
        n := n + nn;
        assert before + rest == (before + rest[..nn]) + rest[nn..];
        match err
        case None =>
          if n < need {
            continue;
          }
          return n, true;
        case EOF =>
          return n, n >= need;
        case Failed =>
          return n, false;
      }
    }
  }

  /** The first kept bytes of a stream and its last left bytes. */
  function Without(s: seq<Byte>, kept: nat, left: nat): (r: seq<Byte>)
    ensures |r| <= |s|
    ensures r == s <==> kept + left >= |s|
  {
    if kept + left >= |s| then s else s[..kept] + s[|s| - left..]
  }

  lemma Tails(was: seq<Byte>, now: seq<Byte>, m: nat, n: nat, incoming: seq<Byte>, left: seq<Byte>)
    requires m <= n <= |was| == |now| && now[..n] + left == was[..m] + incoming
    ensures |left| <= |incoming| && now[..m] == was[..m] && now[..m] + left == Without(was[..m] + incoming, m, |left|)
  {
    var s := was[..m] + incoming;
    assert now[..m] == (now[..n] + left)[..m] == s[..m];
    assert left == (now[..n] + left)[n..];
  }

  lemma NextMultiple(need: nat)
    ensures (need / DEFAULT_SIZE + 1) * DEFAULT_SIZE > need
  {
  }

  class Buffer {
    var buf: array<Byte>
    const nc: Net
    var idx: nat
    var length: nat
    var dbuf: seq<array<Byte>>
    var flipcnt: nat

    /** The unread bytes lie inside the active buffer, and the two backing buffers are different ones. */
    ghost predicate Valid()
      reads this
    {
      |dbuf| == 2 && dbuf[0] != dbuf[1] && idx + length <= buf.Length
    }

    /** What readNext will return, piece by piece: the unread bytes, and those still to come. */
    ghost function Pending(): seq<Byte>
      requires Valid()
      reads this, buf, nc
    {
      buf[idx..idx + length] + nc.incoming
    }

    /** The buffer that the next fill writes to, unless it has to allocate a larger one. */
    function Target(): array<Byte>
      requires Valid()
      reads this
    {
      dbuf[flipcnt % 2]
    }

    /** The last flip has been carried out: the buffer in use is the target, or none of the backing buffers. */
    ghost predicate Settled()
      requires Valid()
      reads this
    {
      buf == Target() || buf !in dbuf
    }

    constructor (nc: Net)
      ensures Valid() && Settled() && this.nc == nc && Pending() == nc.incoming
      ensures fresh(buf) && fresh(dbuf[0]) && fresh(dbuf[1]) && flipcnt == 0 && length == 0
    {
      var fg := new Byte[DEFAULT_SIZE](_ => 0);
      var none := new Byte[0];
      buf, this.nc, idx, length, dbuf, flipcnt := fg, nc, 0, 0, [fg, none], 0;
    }

    /** A delayed flip: the next fill carries it out. */
    method Flip()
      requires Valid()
      modifies this`flipcnt
      ensures Valid() && flipcnt == old(flipcnt) + 1
      ensures old(Settled()) <==> buf != Target()
    {
      flipcnt := flipcnt + 1;
    }

    /** Refills: the unread bytes go to the front of the target, and enough bytes of the network behind them. */
    method Fill(need: nat) returns (ok: bool)
      requires Valid() && length < need
      modifies this`buf, this`idx, this`length, this`dbuf, nc, Target()
      ensures Valid() && Settled() && idx == 0
      ensures buf == old(Target()) || fresh(buf)
      ensures Target() == old(Target()) || fresh(Target())
      ensures dbuf[(flipcnt + 1) % 2] == old(dbuf[(flipcnt + 1) % 2])
      ensures need <= old(Target()).Length ==> buf == old(Target())
      ensures ok ==> need <= length && Pending() == old(Pending())
      ensures ok && buf == old(Target()) ==> buf[length..] == old(Target()[..])[length..]
      ensures !ok ==> |old(Pending())| < need || nc.failed
      ensures !ok ==> length == old(length) && Pending() == Without(old(Pending()), length, |nc.incoming|)
      ensures !ok && !nc.failed ==> nc.incoming == []
    {
      var dest := Destination(need);
      MoveTo(dest);
      ok := ReadOn(need);
    }

    /** The target, or a larger buffer that takes its place if it is not too large to be kept. */
    method Destination(need: nat) returns (dest: array<Byte>)
      requires Valid() && length < need
      modifies this`dbuf
      ensures need <= old(Target()).Length ==> dest == old(Target())
      ensures Valid() && need <= dest.Length && (dest == old(Target()) || fresh(dest))
      ensures dest == Target() || (dest !in dbuf && dbuf == old(dbuf))
      ensures Target() == old(Target()) || fresh(Target())
      ensures dbuf[(flipcnt + 1) % 2] == old(dbuf[(flipcnt + 1) % 2])
    {
      dest := dbuf[flipcnt % 2];
      if need > dest.Length {
        NextMultiple(need);
        dest := new Byte[(need / DEFAULT_SIZE + 1) * DEFAULT_SIZE](_ => 0);
        if dest.Length <= MAX_CACHED {
          dbuf := dbuf[flipcnt % 2 := dest];
        }
      }
    }

    /** Copies the unread bytes to the start of dest, which may be the buffer they are in, and takes it into use. */
    method MoveTo(dest: array<Byte>)
      requires Valid() && length <= dest.Length
      modifies this`buf, this`idx, dest
      ensures Valid() && buf == dest && idx == 0 && Pending() == old(Pending())
      ensures dest[length..] == old(dest[..])[length..]
    {
      ghost var unread := buf[idx..idx + length];
      forall i | 0 <= i < length {
        dest[i] := buf[idx + i];
      }
      buf := dest;
      idx := 0;
      assert dest[..length] == unread;
    }

    /** Appends to the unread bytes until there are enough; what has come before a failure is lost. */
    method ReadOn(need: nat) returns (ok: bool)
      requires Valid() && idx == 0 && length < need <= buf.Length
      modifies this`length, nc, buf
      ensures Valid() && (old(nc.failed) ==> nc.failed)
      ensures ok ==> need <= length && Pending() == old(Pending()) && buf[length..] == old(buf[..])[length..]
      ensures !ok ==> |old(Pending())| < need || nc.failed
      ensures !ok ==> length == old(length) && Pending() == Without(old(Pending()), length, |nc.incoming|)
      ensures !ok && !nc.failed ==> nc.incoming == []
    {
      ghost var was, incoming := buf[..], nc.incoming;
      var n;
      n, ok := nc.ReadAtLeast(buf, length, need);
      Tails(was, buf[..], length, n, incoming, nc.incoming);
      if ok {
        length := n;
      }
    }

    /** The next need bytes, as the stretch [from, from + need) of the buffer in use. */
    method ReadNext(need: nat) returns (ok: bool, from: nat)
      requires Valid()
      modifies this`buf, this`idx, this`length, this`dbuf, nc, Target()
      ensures Valid() && (old(Settled()) ==> Settled())
      ensures buf == old(buf) || buf == old(Target()) || fresh(buf)
      ensures Target() == old(Target()) || fresh(Target())
      ensures dbuf[(flipcnt + 1) % 2] == old(dbuf[(flipcnt + 1) % 2])
      ensures need <= old(length) ==> ok && from == old(idx) && buf == old(buf) && dbuf == old(dbuf)
      ensures need <= old(length) ==> buf[..] == old(buf[..]) && nc.incoming == old(nc.incoming)
      ensures need > old(length) && ok ==> from == 0 && (need <= old(Target()).Length ==> buf == old(Target()))
      ensures ok ==> idx == from + need && old(Pending()) == buf[from..idx] + Pending()
      ensures !ok ==> |old(Pending())| < need || nc.failed
      ensures !ok ==> length == old(length) && Pending() == Without(old(Pending()), length, |nc.incoming|)
      ensures !ok && !nc.failed ==> nc.incoming == []
    {
      if length < need {
        var filled := Fill(need);
        if !filled {
          return false, 0;
        }
      }
      from := Take(need);
      return true, from;
    }

    method Take(need: nat) returns (from: nat)
      requires Valid() && need <= length
      modifies this`idx, this`length
      ensures Valid() && from == old(idx) && idx == from + need
      ensures old(Pending()) == buf[from..idx] + Pending()
    {
      from := idx;
      idx := idx + need;
      length := length - need;
    }

    /** The bytes of the next stretch, which keep their values until the next read. */
    method ReadBytes(need: nat) returns (ok: bool, data: seq<Byte>)
      requires Valid()
      modifies this`buf, this`idx, this`length, this`dbuf, nc, Target()
      ensures Valid() && (dbuf[0] == old(dbuf[0]) || fresh(dbuf[0])) && (dbuf[1] == old(dbuf[1]) || fresh(dbuf[1]))
      ensures ok ==> need <= |old(Pending())| && data == old(Pending())[..need] && Pending() == old(Pending())[need..]
      ensures !ok ==> |old(Pending())| < need || nc.failed
    {
      var from;
      ok, from := ReadNext(need);
      data := if ok then buf[from..idx] else [];
    }

    /** Any run of reads and flips: what the reads return is, in order, a prefix of the stream. */
    method Run(ops: seq<Op>) returns (ok: bool, got: seq<Byte>)
      requires Valid()
      modifies this`buf, this`idx, this`length, this`dbuf, this`flipcnt, nc, dbuf
      ensures Valid() && got <= old(Pending()) && |got| <= Total(ops)
      ensures ok ==> old(Pending()) == got + Pending() && |got| == Total(ops)
      ensures !ok ==> |old(Pending())| < Total(ops) || nc.failed
      decreases |ops|
    {
      got := [];
      if ops == [] {
        return true, got;
      }
      match ops[0]
      case Flip =>
        Flip();
        ok, got := Run(ops[1..]);
      case Read(need) =>
        ghost var pending := Pending();
        var first;
        ok, first := ReadBytes(need);
        if !ok {
          return false, [];
        }
        ghost var rest := Pending();
        ok, got := Run(ops[1..]);
        Joined(pending, first, rest, got, if ok then Pending() else []);
        got := first + got;
    }

    /** After a flip, reads leave everything in the buffer that was in use alone. */
    method ReadAfterFlip(needs: seq<nat>) returns (ok: bool)
      requires Valid() && Settled()
      modifies this`buf, this`idx, this`length, this`dbuf, this`flipcnt, nc, dbuf
      ensures Valid() && old(buf)[..] == old(buf[..])
    {
      Flip();
      ghost var a := buf;
      ok := true;
      var i := 0;
      while i < |needs| && ok
        invariant 0 <= i <= |needs| && Valid() && flipcnt == old(flipcnt) + 1 && a != Target()
        invariant dbuf[0] == old(dbuf[0]) || fresh(dbuf[0])
        invariant dbuf[1] == old(dbuf[1]) || fresh(dbuf[1])
        invariant a[..] == old(buf[..])
      {
        var from;
        ok, from := ReadNext(needs[i]);
        i := i + 1;
      }
    }

    /**
      That needs the earlier flip to have been carried out by a fill. Otherwise the second flip leads back to
      the buffer in use, and a slice that was read between the flips is replaced by later bytes of the stream.
    */
    method ReadAcrossFlips(m: nat, need: nat) returns (ok: bool, from: nat)
      requires Valid() && buf == Target() && m <= length && length - m < need <= buf.Length
      modifies this`buf, this`idx, this`length, this`dbuf, this`flipcnt, nc, dbuf
      ensures from == old(idx) && old(buf[from..from + m]) == old(Pending())[..m]
      ensures ok && from + m <= need ==>
        from + m + m <= |old(Pending())| && old(buf)[from..from + m] == old(Pending())[from + m..from + m + m]
    {
      ghost var pending := Pending();
      Flip();
      ok, from := ReadNext(m);
      ghost var rest := Pending();
      assert rest == pending[m..];
      Flip();
      ok := ReadInPlace(need);
      if ok && from + m <= need {
        ghost var now := old(buf)[..];
        assert old(buf)[..need] == now[..need];
        LaterBytes(pending, rest, now, need, m, from);
      }
    }

    /**
      From every state in which the last flip is still to be carried out, a flip and a read that has to refill
      overwrite the buffer in use, unless a larger one is needed: to be settled is the exact condition.
    */
    method ReadAfterUnsettledFlip(need: nat) returns (ok: bool)
      requires Valid() && !Settled() && length < need <= buf.Length
      modifies this`buf, this`idx, this`length, this`dbuf, this`flipcnt, nc, buf
      ensures ok ==> need <= |old(Pending())| && old(buf)[..need] == old(Pending())[..need]
    {
      Flip();
      ok := ReadInPlace(need);
    }

    /** With the target in use, a refill overwrites the buffer from its start with the bytes that come next. */
    method ReadInPlace(need: nat) returns (ok: bool)
      requires Valid() && buf == Target() && length < need <= buf.Length
      modifies this`buf, this`idx, this`length, this`dbuf, nc, buf
      ensures ok ==> need <= |old(Pending())| && old(buf)[..need] == old(Pending())[..need]
    {
      ghost var pending := Pending();
      var from;
      ok, from := ReadNext(need);
      assert ok ==> pending[..need] == buf[from..idx];
    }
  }

  lemma Joined(s: seq<Byte>, first: seq<Byte>, rest: seq<Byte>, got: seq<Byte>, more: seq<Byte>)
    requires |first| <= |s| && first == s[..|first|] && rest == s[|first|..] && got <= rest
    ensures first + got <= s && (rest == got + more ==> s == first + got + more)
  {
    assert s == first + rest;
    assert rest == got + more ==> first + got + more == first + rest;
  }

  lemma LaterBytes(s: seq<Byte>, rest: seq<Byte>, now: seq<Byte>, need: nat, m: nat, from: nat)
    requires m <= |s| && rest == s[m..] && need <= |now| && need <= |rest| && now[..need] == rest[..need]
    requires from + m <= need
    ensures from + m + m <= |s| && now[from..from + m] == s[from + m..from + m + m]
  {
    assert now[from..from + m] == now[..need][from..from + m];
    assert rest[from..from + m] == rest[..need][from..from + m];
  }

  datatype Op = Flip | Read(need: nat)

  function Total(ops: seq<Op>): nat {
    if ops == [] then 0 else (match ops[0] case Flip => 0 case Read(need) => need) + Total(ops[1..])
  }
}
