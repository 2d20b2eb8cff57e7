// The looping and buffered reads and writes of wrap.c, over a kernel that cuts every transfer
// as it likes, interrupts calls with EINTR and may fail.

module WrapIo {
  import opened Arith
  import opened Octets
  import opened Lines

  // What the kernel makes of one call.
  datatype Event =
    | Interrupted      // -1 with EINTR
    | Failed           // -1 with another error
    | Ready(most: nat) // transfers at most this much

  function Positive(r: int): nat { if r < 0 then 0 else r }

  predicate Suffix(after: seq<Event>, before: seq<Event>) {
    |after| <= |before| && after == before[|before| - |after|..]
  }

  function Used(before: seq<Event>, after: seq<Event>): seq<Event>
    requires Suffix(after, before)
  {
    before[..|before| - |after|]
  }

  // Calls took the schedule from `before` to `after`; the last of them failed, or none did.
  ghost predicate Ran(before: seq<Event>, after: seq<Event>, failed: bool) {
    && Suffix(after, before)
    && var used := Used(before, after);
       if failed then used != [] && used[|used| - 1] == Failed && Failed !in used[..|used| - 1] else Failed !in used
  }

  lemma RanOn(a: seq<Event>, b: seq<Event>, c: seq<Event>, failed: bool)
    requires Ran(a, b, false) && Ran(b, c, failed)
    ensures Ran(a, c, failed) && Used(a, c) == Used(a, b) + Used(b, c)
  {
    var i, j := |a| - |b|, |b| - |c|;
    assert a[..i + j] == a[..i] + b[..j];
    if failed {
      assert a[..i + j - 1] == a[..i] + b[..j - 1];
    }
  }

  // A call fails exactly when it meets a hard error, so never if the schedule has none.
  lemma FailsOnHardErrors(before: seq<Event>, after: seq<Event>, failed: bool)
    requires Ran(before, after, failed)
    ensures failed <==> Failed in Used(before, after)
    ensures Failed !in before ==> !failed && Failed !in after
  {
    var used := Used(before, after);
    assert failed ==> used[|used| - 1] == Failed;
    assert Failed in used || Failed in after ==> Failed in before;
  }

  // One more byte of the stream copied into a buffer that held `was`.
  lemma Copied(was: Bytes, stream: Bytes, off: nat, i: nat)
    requires off + i < |was| && i < |stream|
    ensures (was[..off] + stream[..i] + was[off + i..])[off + i := stream[i]]
            == was[..off] + stream[..i + 1] + was[off + i + 1..]
  {
  }

  method CopyBytes(to: array<Byte>, off: nat, from: Bytes, k: nat)
    requires k <= |from| && off + k <= to.Length
    modifies to
    ensures to[off..off + k] == from[..k]
    ensures to[..off] == old(to[..off]) && to[off + k..] == old(to[off + k..])
  {
    ghost var was := to[..];
    var i: nat := 0;
    while i < k
      invariant i <= k
      invariant to[..] == was[..off] + from[..i] + was[off + i..]
    {
      Copied(was, from, off, i);
      to[off + i] := from[i];
      i := i + 1;
    }
  }

  // A file descriptor: the bytes it has still to deliver before the end of the stream, the
  // bytes it has accepted, and how the kernel will treat the calls to come.
  class Descriptor {
    var stream: Bytes
    var sent: Bytes
    var events: seq<Event>

    constructor (stream: Bytes, events: seq<Event>)
      ensures this.stream == stream && sent == [] && this.events == events
    {
      this.stream, sent, this.events := stream, [], events;
    }

    // A call when the schedule has run out transfers all it can.
    method Next(n: nat) returns (e: Event)
      modifies this`events
      ensures Ran(old(events), events, e == Failed)
      ensures Used(old(events), events) == (if old(events) == [] then [] else [e])
      ensures old(events) == [] ==> e == Ready(n)
    {
      if events == [] {
        e := Ready(n);
      } else {
        e := events[0];
        events := events[1..];
      }
    }

    // read: a short count is at least one byte, and 0 means the end of the stream.
    method Read(to: array<Byte>, off: nat, n: nat) returns (r: int, eintr: bool)
      requires 0 < n && off + n <= to.Length
      modifies this`stream, this`events, to
      ensures -1 <= r <= n && Positive(r) <= |old(stream)|
      ensures r == 0 ==> old(stream) == []
      ensures to[off..off + Positive(r)] == old(stream)[..Positive(r)]
      ensures to[..off] == old(to[..off]) && to[off + Positive(r)..] == old(to[off + Positive(r)..])
      ensures stream == old(stream)[Positive(r)..]
      ensures Ran(old(events), events, r < 0 && !eintr)
      ensures r < 0 && eintr ==> |events| < |old(events)|
    {
      var e := Next(n);
      match e
      case Interrupted => r, eintr := -1, true;
      case Failed => r, eintr := -1, false;
      case Ready(most) =>
        var k: nat := Min(Min(if most == 0 then 1 else most, n), |stream|);
        CopyBytes(to, off, stream, k);
        stream := stream[k..];
        r, eintr := k, false;
    }

    // write: may accept nothing.
    method Write(from: array<Byte>, off: nat, n: nat) returns (r: int, eintr: bool)
      requires 0 < n && off + n <= from.Length
      modifies this`sent, this`events
      ensures -1 <= r <= n
      ensures sent == old(sent) + from[off..off + Positive(r)]
      ensures Ran(old(events), events, r < 0 && !eintr)
      ensures r < 0 && eintr ==> |events| < |old(events)|
      ensures r == 0 <==> Ready(0) in Used(old(events), events)
    {
      var e := Next(n);
      match e
      case Interrupted => r, eintr := -1, true;
      case Failed => r, eintr := -1, false;
      case Ready(most) =>
        var k := Min(most, n);
        sent := sent + from[off..off + k];
        r, eintr := k, false;
    }
  }

  // One turn of Readn's loop on the buffer: `now` with `k` more bytes of the stream.
  lemma Filled(all: Bytes, ptr: nat, k: nat, before: Bytes, now: Bytes, rest: Bytes)
    requires ptr + k <= |now| == |before| && k <= |rest|
    requires all == before[..ptr] + rest && now[..ptr] == before[..ptr] && now[ptr..ptr + k] == rest[..k]
    ensures all == now[..ptr + k] + rest[k..]
  {
    assert now[..ptr + k] == now[..ptr] + now[ptr..ptr + k];
  }

  // Readn.  Without a hard error the result depends on the stream alone: n bytes, or all that
  // is left of it.
  method Readn(fd: Descriptor, to: array<Byte>, n: nat) returns (j: int)
    requires n <= to.Length
    modifies fd`stream, fd`events, to
    ensures j < 0 ==> j == -1 && |old(fd.stream)| - |fd.stream| < n
    ensures j >= 0 ==> j == Min(n, |old(fd.stream)|) == |old(fd.stream)| - |fd.stream|
    ensures Ran(old(fd.events), fd.events, j < 0)
    ensures |fd.stream| <= |old(fd.stream)|
      && var m := |old(fd.stream)| - |fd.stream|;
         && m <= n && old(fd.stream) == to[..m] + fd.stream
         && to[m..] == old(to[m..])
  {
    var nleft, ptr := n, 0;
    ghost var all, was := fd.stream, to[..];
    while nleft > 0
      invariant 0 <= nleft && nleft + ptr == n
      invariant 0 <= ptr && ptr + |fd.stream| == |all|
      invariant all == to[..ptr] + fd.stream && to[ptr..] == was[ptr..]
      invariant Ran(old(fd.events), fd.events, false)
      decreases |fd.events|, nleft
    {
      ghost var events, before, rest := fd.events, to[..], fd.stream;
      var nread, eintr := fd.Read(to, ptr, nleft);
      RanOn(old(fd.events), events, fd.events, nread < 0 && !eintr);
      Filled(all, ptr, Positive(nread), before, to[..], rest);
      if nread < 0 {
        if eintr {
          nread := 0;
        } else {
          return -1;
        }
      } else if nread == 0 {
        break;
      }
      nleft, ptr := nleft - nread, ptr + nread;
    }
    return n - nleft;
  }

  // Writen.  The result is the number of leading bytes sent; it falls short of n only at a
  // write that accepted nothing.
  method Writen(fd: Descriptor, from: array<Byte>, n: nat) returns (k: int)
    requires n <= from.Length
    modifies fd`sent, fd`events
    ensures -1 <= k <= n
    ensures exists m: nat :: m <= n && fd.sent == old(fd.sent) + from[..m] && (k >= 0 ==> k == m) && (k < 0 ==> m < n)
    ensures Ran(old(fd.events), fd.events, k < 0)
    ensures k >= 0 ==> (k < n <==> Ready(0) in Used(old(fd.events), fd.events))
  {
    var nleft, ptr := n, 0;
    while nleft > 0
      invariant 0 <= nleft && nleft + ptr == n && 0 <= ptr
      invariant fd.sent == old(fd.sent) + from[..ptr]
      invariant Ran(old(fd.events), fd.events, false) && Ready(0) !in Used(old(fd.events), fd.events)
      decreases |fd.events|, nleft
    {
      ghost var events := fd.events;
      var nwritten, eintr := fd.Write(from, ptr, nleft);
      RanOn(old(fd.events), events, fd.events, nwritten < 0 && !eintr);
      assert from[..ptr] + from[ptr..ptr + Positive(nwritten)] == from[..ptr + Positive(nwritten)];
      if nwritten < 0 {
        if eintr {
          nwritten := 0;
        } else {
          return -1;
        }
      } else if nwritten == 0 {
        break;
      }
      nleft, ptr := nleft - nwritten, ptr + nwritten;
    }
    return n - nleft;
  }

  const READ_BUF: nat := 100

  // The static variables of my_read.  They belong to no descriptor: bytes read ahead from one
  // are handed out first whichever is read next.
  class LineReader {
    var readCnt: int
    var readPtr: nat
    const readBuf: array<Byte>

    ghost predicate Valid()
      reads this
    {
      readBuf.Length == READ_BUF && readPtr + Positive(readCnt) <= READ_BUF
    }

    // The bytes read ahead, and the stream as the callers of my_read see it.
    ghost function Pending(): Bytes
      requires Valid()
      reads this, readBuf
    {
      readBuf[readPtr..readPtr + Positive(readCnt)]
    }

    ghost function Stream(fd: Descriptor): Bytes
      requires Valid()
      reads this, readBuf, fd
    {
      Pending() + fd.stream
    }

    constructor ()
      ensures Valid() && Pending() == [] && fresh(readBuf) && readBuf.Length == 100
    {
      readCnt, readPtr := 0, 0;
      readBuf := new Byte[READ_BUF](_ => NUL);
    }

    // The reads at the label `again`.
    method Fill(fd: Descriptor) returns (r: int)
      requires readBuf.Length == READ_BUF
      modifies readBuf, fd`stream, fd`events
      ensures -1 <= r <= READ_BUF
      ensures old(fd.stream) == readBuf[..Positive(r)] + fd.stream
      ensures r == 0 ==> old(fd.stream) == []
      ensures Ran(old(fd.events), fd.events, r < 0)
    {
      var eintr := true;
      r := -1;
      while r < 0 && eintr
        invariant -1 <= r <= READ_BUF
        invariant old(fd.stream) == readBuf[..Positive(r)] + fd.stream
        invariant r == 0 ==> old(fd.stream) == []
        invariant Ran(old(fd.events), fd.events, r < 0 && !eintr)
        decreases |fd.events|, r < 0 && eintr
      {
        ghost var events := fd.events;
        r, eintr := fd.Read(readBuf, 0, READ_BUF);
        RanOn(old(fd.events), events, fd.events, r < 0 && !eintr);
      }
    }

    // my_read.  After a failure the next call reads again.
    method MyRead(fd: Descriptor) returns (rc: int, c: Byte)
      requires Valid()
      modifies this, readBuf, fd`stream, fd`events
      ensures Valid() && -1 <= rc <= 1
      ensures rc == 1 ==> old(Stream(fd)) == [c] + Stream(fd)
      ensures rc < 1 ==> Stream(fd) == old(Stream(fd))
      ensures rc == 0 ==> old(Stream(fd)) == []
      ensures Ran(old(fd.events), fd.events, rc < 0)
    {
      c := NUL;
      if readCnt <= 0 {
        assert old(Stream(fd)) == fd.stream;
        readCnt := Fill(fd);
        if readCnt < 0 {
          assert Stream(fd) == fd.stream;
          return -1, c;
        } else if readCnt == 0 {
          assert Stream(fd) == fd.stream;
          return 0, c;
        }
        readPtr := 0;
      }
      ghost var pending := Pending();
      c := TakeByte();
      Shift(pending, c, Pending(), fd.stream);
      return 1, c;
    }

    // *ptr = *read_ptr++
    method TakeByte() returns (c: Byte)
      requires Valid() && readCnt > 0
      modifies this`readCnt, this`readPtr
      ensures Valid() && old(Pending()) == [c] + Pending()
    {
      readCnt := readCnt - 1;
      c := readBuf[readPtr];
      readPtr := readPtr + 1;
    }

    // Readline's loop: `n` counts as the source does, `rc` is the last result of my_read.
    method ReadLoop(fd: Descriptor, to: array<Byte>, maxlen: nat) returns (n: nat, ptr: nat, rc: int, ghost stop: Stop)
      requires Valid() && 1 <= to.Length && maxlen <= to.Length && to != readBuf
      modifies this, readBuf, to, fd`stream, fd`events
      ensures Valid() && -1 <= rc <= 1 && Ran(old(fd.events), fd.events, rc < 0)
      ensures Reading(to[..], old(to[..]), ptr, old(Stream(fd)), Room(maxlen), Stream(fd), stop)
      ensures rc == 1 ==> (if stop == AtLf then n == ptr else stop == Going && ptr == Room(maxlen) && n == ptr + 1)
      ensures rc == 0 ==> stop == AtEnd && n == ptr + 1 && ptr < Room(maxlen)
      ensures rc < 0 ==> stop == Going && ptr < Room(maxlen)
    {
      n, ptr, rc, stop := 1, 0, 1, Going;
      ghost var all, was, rest := Stream(fd), to[..], Stream(fd);
      while n < maxlen
        invariant Valid() && n == ptr + 1 && ptr <= Room(maxlen) && Stream(fd) == rest && rc == 1
        invariant Reading(to[..], was, ptr, all, Room(maxlen), rest, Going)
        invariant Ran(old(fd.events), fd.events, false)
        decreases maxlen - n
      {
        ghost var events := fd.events;
        var c;
        rc, c := MyRead(fd);
        rest := Stream(fd);
        RanOn(old(fd.events), events, fd.events, rc < 0);
        if rc == 1 {
          ReadingStep(to[..], was, ptr, all, Room(maxlen), c, rest);
          to[ptr] := c;
          ptr := ptr + 1;
          if c == LF {
            stop := AtLf;
            break;
          }
        } else if rc == 0 {
          stop := AtEnd;
          break;
        } else {
          break;
        }
        n := n + 1;
      }
    }

    // Readline.  The line stored is a function of the stream alone, however the kernel cut it;
    // the result counts it, except that a buffer filled before the end of a line counts one
    // more.  A hard error gives -1 and leaves the bytes taken so far unterminated.
    method Readline(fd: Descriptor, to: array<Byte>, maxlen: nat) returns (r: int)
      requires Valid() && 1 <= to.Length && maxlen <= to.Length && to != readBuf
      modifies this, readBuf, to, fd`stream, fd`events
      ensures Valid() && Ran(old(fd.events), fd.events, r < 0)
      ensures r >= 0 ==>
        var line := Piece(old(Stream(fd)), Room(maxlen));
        && old(Stream(fd)) == line + Stream(fd)
        && to[..] == line + [NUL] + old(to[|line| + 1..])
        && r == if |line| == Room(maxlen) && !EndsLine(line) then |line| + 1 else |line|
      ensures r < 0 ==>
        var m := |old(Stream(fd))| - |Stream(fd)|;
        && r == -1 && 0 <= m < Room(maxlen)
        && old(Stream(fd)) == to[..m] + Stream(fd) && to[m..] == old(to[m..])
    {
      ghost var all, was := Stream(fd), to[..];
      var n, ptr, rc, stop := ReadLoop(fd, to, maxlen);
      if rc != 0 && rc != 1 {
        return -1;
      }
      ghost var rest := Stream(fd);
      ReadingEnd(to[..], was, ptr, all, Room(maxlen), rest, stop);
      to[ptr] := NUL;
      assert Stream(fd) == rest;
      return if rc == 0 then n - 1 else n;
    }

    // Successive calls of Readline on one descriptor without hard errors: however the kernel
    // cuts and interrupts the reads, the lines are the pieces of the stream, and put together
    // with what is left they are the stream; enough calls leave nothing.  The caller learns
    // the length of a line from the result, which is maxlen only for a filled buffer.
    method ReadLines(fd: Descriptor, to: array<Byte>, maxlens: seq<int>) returns (lines: seq<Bytes>)
      requires Valid() && 1 <= to.Length && to != readBuf
      requires forall i :: 0 <= i < |maxlens| ==> 0 <= maxlens[i] <= to.Length
      requires Failed !in fd.events
      modifies this, readBuf, to, fd`stream, fd`events
      ensures Valid()
      ensures lines == Pieces(old(Stream(fd)), Rooms(maxlens))
      ensures old(Stream(fd)) == Flatten(lines) + Stream(fd)
      ensures |maxlens| >= |old(Stream(fd))| && (forall i :: 0 <= i < |maxlens| ==> maxlens[i] >= 2) ==>
                Flatten(lines) == old(Stream(fd))
      decreases |maxlens|
    {
      ghost var all, events := Stream(fd), fd.events;
      if maxlens == [] {
        assert Rooms(maxlens) == [];
        lines := [];
      } else {
        var r := Readline(fd, to, maxlens[0]);
        FailsOnHardErrors(events, fd.events, r < 0);
        var stored := if r < maxlens[0] then r else Room(maxlens[0]);
        var line := to[..stored];
        assert line == to[..][..stored] == Piece(all, Room(maxlens[0]));
        ghost var rest := Stream(fd);
        FirstPiece(all, maxlens, rest);
        var more := ReadLines(fd, to, maxlens[1..]);
        FlattenFirst(line, more, Stream(fd));
        lines := [line] + more;
      }
      if |maxlens| >= |all| && forall i :: 0 <= i < |maxlens| ==> maxlens[i] >= 2 {
        EnoughCalls(all, maxlens);
      }
    }
  }

  lemma Shift(pending: Bytes, c: Byte, more: Bytes, rest: Bytes)
    requires pending == [c] + more
    ensures pending + rest == [c] + (more + rest)
  {
  }
}
