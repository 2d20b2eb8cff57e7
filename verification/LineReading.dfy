// Reading a byte stream line by line: the pieces in which a bounded line reader hands out a
// stream, and `get_line` of pub.c, which also turns every line ending into one LF.

module Lines {
  import opened Octets

  // What a reader with room for `k` bytes takes: up to the first LF, and that too.
  function Piece(t: Bytes, k: nat): (p: Bytes)
    ensures |p| <= |t| && |p| <= k
  {
    if k == 0 || t == [] then [] else if t[0] == LF then [LF] else [t[0]] + Piece(t[1..], k - 1)
  }

  predicate EndsLine(p: Bytes) { p != [] && p[|p| - 1] == LF }

  // A beginning of the stream with no LF before its last byte, that stops only at an LF, for
  // want of room or at the end of the stream.
  predicate IsPiece(p: Bytes, t: Bytes, k: nat) {
    && |p| <= k && |p| <= |t| && p == t[..|p|]
    && (forall i :: 0 <= i < |p| - 1 ==> p[i] != LF)
    && (EndsLine(p) || |p| == k || p == t)
  }

  lemma {:induction false} PieceIsPiece(t: Bytes, k: nat)
    ensures IsPiece(Piece(t, k), t, k)
  {
    if k > 0 && t != [] && t[0] != LF {
      PieceIsPiece(t[1..], k - 1);
      var p, q := Piece(t, k), Piece(t[1..], k - 1);
      assert p[1..] == q;
      assert forall i :: 1 <= i < |p| - 1 ==> p[i] == q[i - 1];
    }
  }

  lemma {:induction false} PieceIsUnique(p: Bytes, t: Bytes, k: nat)
    requires IsPiece(p, t, k)
    ensures p == Piece(t, k)
  {
    if p != [] && t[0] != LF {
      assert p[1..] == t[1..][..|p| - 1];
      PieceIsUnique(p[1..], t[1..], k - 1);
    }
  }

  // Successive calls with room for ks[0], ks[1], ... bytes.
  function Pieces(t: Bytes, ks: seq<nat>): seq<Bytes> {
    if ks == [] then [] else var p := Piece(t, ks[0]); [p] + Pieces(t[|p|..], ks[1..])
  }

  function Flatten(ps: seq<Bytes>): Bytes { if ps == [] then [] else ps[0] + Flatten(ps[1..]) }

  // However much room each call has, the calls hand out the stream in order; with some room
  // each, |t| of them are enough for all of it.
  lemma {:induction false} PiecesAreTheStream(t: Bytes, ks: seq<nat>)
    ensures var all := Flatten(Pieces(t, ks)); |all| <= |t| && all == t[..|all|]
    ensures |ks| >= |t| && (forall i :: 0 <= i < |ks| ==> ks[i] > 0) ==> Flatten(Pieces(t, ks)) == t
  {
    if ks != [] {
      PieceIsPiece(t, ks[0]);
      var p := Piece(t, ks[0]);
      var rest := t[|p|..];
      PiecesAreTheStream(rest, ks[1..]);
      assert t == p + rest;
      assert Pieces(t, ks)[0] == p && Pieces(t, ks)[1..] == Pieces(rest, ks[1..]);
      var all := Flatten(Pieces(rest, ks[1..]));
      assert all == rest[..|all|];
      assert p + all == t[..|p + all|];
    }
  }

  // ---- a reader with a buffer of `size` bytes, one of them for the terminator ----

  function Room(size: int): nat { if size < 1 then 0 else size - 1 }

  function Rooms(sizes: seq<int>): seq<nat> {
    seq(|sizes|, i requires 0 <= i < |sizes| => Room(sizes[i]))
  }

  // One call and then the others.
  lemma FirstPiece(t: Bytes, sizes: seq<int>, rest: Bytes)
    requires sizes != [] && t == Piece(t, Room(sizes[0])) + rest
    ensures Pieces(t, Rooms(sizes)) == [Piece(t, Room(sizes[0]))] + Pieces(rest, Rooms(sizes[1..]))
  {
    assert Rooms(sizes)[1..] == Rooms(sizes[1..]);
    assert t[|Piece(t, Room(sizes[0]))|..] == rest;
  }

  lemma FlattenFirst(p: Bytes, ps: seq<Bytes>, rest: Bytes)
    ensures Flatten([p] + ps) + rest == p + (Flatten(ps) + rest)
  {
    assert ([p] + ps)[1..] == ps;
  }

  // With room for at least one byte each, as many calls as there are bytes read all of them.
  lemma EnoughCalls(t: Bytes, sizes: seq<int>)
    requires |sizes| >= |t| && forall i :: 0 <= i < |sizes| ==> sizes[i] >= 2
    ensures Flatten(Pieces(t, Rooms(sizes))) == t
  {
    PiecesAreTheStream(t, Rooms(sizes));
  }

  datatype Stop = Going | AtLf | AtEnd

  // What such a reader's loop has done to a buffer that held `was`: the first `i` bytes of
  // the stream `all` are in it and `rest` is left.
  ghost predicate Reading(now: Bytes, was: Bytes, i: nat, all: Bytes, room: nat, rest: Bytes, stop: Stop) {
    && |now| == |was| && i <= room && i < |now|
    && now[i..] == was[i..] && all == now[..i] + rest
    && (forall k :: 0 <= k < i - 1 ==> now[k] != LF)
    && (EndsLine(now[..i]) <==> stop == AtLf) && (stop == AtEnd ==> rest == [])
  }

  lemma ReadingStep(now: Bytes, was: Bytes, i: nat, all: Bytes, room: nat, c: Byte, rest: Bytes)
    requires Reading(now, was, i, all, room, [c] + rest, Going) && i < room && i + 1 < |now|
    ensures Reading(now[i := c], was, i + 1, all, room, rest, if c == LF then AtLf else Going)
  {
    var next := now[i := c];
    assert next[..i + 1] == now[..i] + [c];
    assert now[..i] + ([c] + rest) == next[..i + 1] + rest;
    assert next[i + 1..] == now[i..][1..] == was[i + 1..];
    assert i > 0 ==> now[..i][i - 1] == now[i - 1];
  }

  lemma Terminated(now: Bytes, was: Bytes, i: nat)
    requires i < |now| == |was| && now[i..] == was[i..]
    ensures now[i := NUL] == now[..i] + [NUL] + was[i + 1..]
  {
    assert now[i..][1..] == now[i + 1..];
    assert was[i..][1..] == was[i + 1..];
  }

  // The terminator written, the buffer holds the piece that was to be read.
  lemma ReadingEnd(now: Bytes, was: Bytes, i: nat, all: Bytes, room: nat, rest: Bytes, stop: Stop)
    requires Reading(now, was, i, all, room, rest, stop) && (stop != Going || i == room)
    ensures var line := Piece(all, room);
      |line| == i && (EndsLine(line) <==> stop == AtLf) && all == line + rest && now[i := NUL] == line + [NUL] + was[i + 1..]
  {
    var line := now[..i];
    assert line + [] == line;
    PieceIsUnique(line, all, room);
    Terminated(now, was, i);
  }
}

module LineReading {
  import opened Octets
  import opened Lines

  // CR LF, CR and LF each end a line.
  function Normalize(t: Bytes): Bytes {
    if t == [] then []
    else if t[0] == CR then [LF] + Normalize(if |t| > 1 && t[1] == LF then t[2..] else t[1..])
    else [t[0]] + Normalize(t[1..])
  }

  // Only the LF of a CR LF disappears, and no CR stays.
  function Pairs(t: Bytes): nat {
    if t == [] then 0 else (if |t| > 1 && t[0] == CR && t[1] == LF then 1 else 0) + Pairs(t[1..])
  }

  lemma {:induction false} NormalizedShape(t: Bytes)
    ensures CR !in Normalize(t)
    ensures |Normalize(t)| + Pairs(t) == |t|
    ensures Normalize(t) == t <==> CR !in t
  {
    if t != [] {
      NormalizedShape(t[1..]);
      assert t == [t[0]] + t[1..];
      if t[0] == CR && |t| > 1 && t[1] == LF {
        assert t[1..][1..] == t[2..];
        NormalizedShape(t[2..]);
      }
    }
  }

  predicate CutsPair(a: Bytes, b: Bytes) { a != [] && b != [] && a[|a| - 1] == CR && b[0] == LF }

  // A stream may be normalised part by part exactly when no part boundary splits a CR LF.
  lemma {:induction false} NormalizeConcatenation(a: Bytes, b: Bytes)
    ensures Normalize(a + b) == Normalize(a) + Normalize(b) <==> !CutsPair(a, b)
  {
    var t := a + b;
    if a == [] {
      assert t == b;
    } else if |a| == 1 {
      assert t[1..] == b;
      assert a[1..] == [];
      if CutsPair(a, b) {
        assert t[2..] == b[1..];
        assert |Normalize(t)| < |Normalize(a) + Normalize(b)|;
      } else {
        assert Normalize(a) == [if a[0] == CR then LF else a[0]];
        assert Normalize(t) == Normalize(a) + Normalize(b);
      }
    } else {
      var n := if a[0] == CR && a[1] == LF then 2 else 1;
      var head := [if a[0] == CR then LF else a[0]];
      assert t[n..] == a[n..] + b;
      NormalizeConcatenation(a[n..], b);
      assert Normalize(t) == head + Normalize(a[n..] + b);
      assert Normalize(a) == head + Normalize(a[n..]);
      if n == 2 && |a| == 2 {
        assert a[2..] == [];
      }
      HeadCancels(head, Normalize(a[n..] + b), Normalize(a[n..]), Normalize(b));
    }
  }

  lemma HeadCancels(head: Bytes, x: Bytes, y: Bytes, z: Bytes)
    ensures head + x == (head + y) + z <==> x == y + z
  {
    assert (head + y) + z == head + (y + z);
    assert (head + x)[|head|..] == x;
    assert (head + (y + z))[|head|..] == y + z;
  }

  // A connected socket: the bytes that the peer has still to deliver before it closes.
  class Socket {
    var stream: Bytes

    constructor (stream: Bytes)
      ensures this.stream == stream
    {
      this.stream := stream;
    }

    // recv of one byte, which MSG_PEEK leaves in the socket.
    method Recv(peek: bool) returns (n: nat, c: Byte)
      modifies this
      ensures n == if old(stream) == [] then 0 else 1
      ensures n == 1 ==> c == old(stream)[0]
      ensures stream == if n == 0 || peek then old(stream) else old(stream)[1..]
    {
      if stream == [] {
        n, c := 0, 0;
      } else {
        n, c := 1, stream[0];
        if !peek {
          stream := stream[1..];
        }
      }
    }
  }

  // The reads of one turn: one byte of the normalised stream.
  method NextByte(sock: Socket) returns (n: nat, c: Byte)
    modifies sock
    ensures n == if old(sock.stream) == [] then 0 else 1
    ensures n == 1 ==> Normalize(old(sock.stream)) == [c] + Normalize(sock.stream)
    ensures n == 1 ==> |sock.stream| < |old(sock.stream)|
    ensures n == 0 ==> sock.stream == []
  {
    n, c := sock.Recv(false);
    if n > 0 && c == CR {
      var m;
      m, c := sock.Recv(true);
      if m > 0 && c == LF {
        m, c := sock.Recv(false);
      } else {
        c := LF;
      }
    }
  }

  // get_line.  A CR LF is taken whole or not at all, whatever `size` is.
  method GetLine(sock: Socket, buf: array<Byte>, size: int) returns (i: nat)
    requires 1 <= buf.Length && size <= buf.Length
    modifies sock, buf
    ensures var line := Piece(Normalize(old(sock.stream)), Room(size));
      && i == |line| < buf.Length && buf[..] == line + [NUL] + old(buf[i + 1..])
      && Normalize(old(sock.stream)) == line + Normalize(sock.stream)
  {
    i := 0;
    var c: Byte := NUL;
    ghost var was, all, stop := buf[..], Normalize(sock.stream), Going;
    while i < size - 1 && c != LF
      invariant Reading(buf[..], was, i, all, Room(size), Normalize(sock.stream), stop)
      invariant c == LF <==> stop != Going
      decreases |sock.stream|, c != LF
    {
      var n;
      n, c := NextByte(sock);
      if n > 0 {
        ReadingStep(buf[..], was, i, all, Room(size), c, Normalize(sock.stream));
        buf[i] := c;
        i := i + 1;
        stop := if c == LF then AtLf else Going;
      } else {
        c := LF;
        stop := AtEnd;
      }
    }
    ReadingEnd(buf[..], was, i, all, Room(size), Normalize(sock.stream), stop);
    buf[i] := NUL;
  }

  // Successive calls of get_line, with whatever sizes: the lines are the pieces of the
  // normalised stream, and put together with what is left they are that stream; enough
  // calls leave nothing.
  method GetLines(sock: Socket, buf: array<Byte>, sizes: seq<int>) returns (lines: seq<Bytes>)
    requires 1 <= buf.Length && forall i :: 0 <= i < |sizes| ==> sizes[i] <= buf.Length
    modifies sock, buf
    ensures lines == Pieces(Normalize(old(sock.stream)), Rooms(sizes))
    ensures Normalize(old(sock.stream)) == Flatten(lines) + Normalize(sock.stream)
    ensures |sizes| >= |Normalize(old(sock.stream))| && (forall i :: 0 <= i < |sizes| ==> sizes[i] >= 2) ==>
              Flatten(lines) == Normalize(old(sock.stream))
    decreases |sizes|
  {
    ghost var all := Normalize(sock.stream);
    if sizes == [] {
      assert Rooms(sizes) == [];
      lines := [];
    } else {
      var i := GetLine(sock, buf, sizes[0]);
      var line := buf[..i];
      assert line == buf[..][..i] == Piece(all, Room(sizes[0]));
      ghost var rest := Normalize(sock.stream);
      FirstPiece(all, sizes, rest);
      var more := GetLines(sock, buf, sizes[1..]);
      FlattenFirst(line, more, Normalize(sock.stream));
      lines := [line] + more;
    }
    if |sizes| >= |all| && forall i :: 0 <= i < |sizes| ==> sizes[i] >= 2 {
      EnoughCalls(all, sizes);
    }
  }
}
