// Writen at one end of a byte channel and Readn at the other (wrap.c), one loop turn at a
// time in any interleaving.  The channel holds at most `capacity` bytes; a writer closes it
// when its loop ends.

module Transfer {
  import opened Octets

  datatype State = State(
    data: Bytes,       // the writer's buffer
    want: nat,         // the bytes the reader asks for
    capacity: nat,
    sent: nat,         // ptr of Writen
    writing: bool,
    channel: Bytes,
    got: Bytes,        // the filled part of the reader's buffer
    reading: bool,
    refused: bool,     // a write has returned 0
    interrupts: nat    // EINTRs that are still to come
  )

  datatype Act =
    | WriterInterrupted | Write(count: nat) | WriteRefused | WriterEnds
    | ReaderInterrupted | Read(count: nat) | ReadEnd | ReaderEnds

  predicate Enabled(s: State, a: Act) {
    match a
    case WriterInterrupted => s.writing && s.sent < |s.data| && s.interrupts > 0
    case Write(k) => s.writing && 0 < k && s.sent + k <= |s.data| && |s.channel| + k <= s.capacity
    case WriteRefused => s.writing && s.sent < |s.data|
    case WriterEnds => s.writing && s.sent == |s.data|
    case ReaderInterrupted => s.reading && |s.got| < s.want && s.interrupts > 0
    case Read(k) => s.reading && 0 < k <= |s.channel| && |s.got| + k <= s.want
    case ReadEnd => s.reading && |s.got| < s.want && s.channel == [] && !s.writing
    case ReaderEnds => s.reading && |s.got| == s.want
  }

  function Apply(s: State, a: Act): State
    requires Enabled(s, a)
  {
    match a
    case WriterInterrupted | ReaderInterrupted => s.(interrupts := s.interrupts - 1)
    case Write(k) => s.(sent := s.sent + k, channel := s.channel + s.data[s.sent..s.sent + k])
    case WriteRefused => s.(writing := false, refused := true)
    case WriterEnds => s.(writing := false)
    case Read(k) => s.(got := s.got + s.channel[..k], channel := s.channel[k..])
    case ReadEnd | ReaderEnds => s.(reading := false)
  }

  function Init(data: Bytes, want: nat, capacity: nat, interrupts: nat): State {
    State(data, want, capacity, 0, true, [], [], true, false, interrupts)
  }

  predicate Run(s: State, acts: seq<Act>)
    decreases |acts|
  {
    acts == [] || (Enabled(s, acts[0]) && Run(Apply(s, acts[0]), acts[1..]))
  }

  function Final(s: State, acts: seq<Act>): State
    requires Run(s, acts)
    decreases |acts|
  {
    if acts == [] then s else Final(Apply(s, acts[0]), acts[1..])
  }

  // Nothing is lost, repeated or reordered on the way.
  predicate Inv(s: State) {
    && s.sent <= |s.data| && |s.got| <= s.want && |s.channel| <= s.capacity
    && s.got + s.channel == s.data[..s.sent]
    && (!s.writing ==> s.sent == |s.data| || s.refused)
    && (!s.reading ==> |s.got| == s.want || (s.channel == [] && !s.writing))
  }

  function Measure(s: State): nat
    requires Inv(s)
  {
    s.interrupts + 2 * (|s.data| - s.sent) + |s.channel| + (if s.writing then 1 else 0) + (if s.reading then 1 else 0)
  }

  lemma InvStep(s: State, a: Act)
    requires Inv(s) && Enabled(s, a)
    ensures Inv(Apply(s, a)) && Measure(Apply(s, a)) < Measure(s)
  {
    match a
    case Write(k) => InvWrite(s, k);
    case Read(k) => InvRead(s, k);
    case _ =>
  }

  lemma InvWrite(s: State, k: nat)
    requires Inv(s) && Enabled(s, Write(k))
    ensures Inv(Apply(s, Write(k))) && Measure(Apply(s, Write(k))) < Measure(s)
  {
    assert s.data[..s.sent + k] == s.data[..s.sent] + s.data[s.sent..s.sent + k];
  }

  lemma InvRead(s: State, k: nat)
    requires Inv(s) && Enabled(s, Read(k))
    ensures Inv(Apply(s, Read(k))) && Measure(Apply(s, Read(k))) < Measure(s)
  {
    assert s.got + s.channel == (s.got + s.channel[..k]) + s.channel[k..];
  }

  lemma {:induction false} RunInv(s: State, acts: seq<Act>)
    requires Inv(s) && Run(s, acts)
    ensures Inv(Final(s, acts)) && |acts| + Measure(Final(s, acts)) <= Measure(s)
    ensures var f := Final(s, acts); f.data == s.data && f.want == s.want && f.capacity == s.capacity
    decreases |acts|
  {
    if acts != [] {
      InvStep(s, acts[0]);
      RunInv(Apply(s, acts[0]), acts[1..]);
    }
  }

  // In every run both calls together take a bounded number of turns; the reader's buffer always
  // holds the leading bytes sent, in order; and when the reader returns it has all that it
  // asked for, or all that was sent before the channel was closed.
  lemma {:induction false} TransferIsExact(data: Bytes, want: nat, capacity: nat, interrupts: nat, acts: seq<Act>)
    requires Run(Init(data, want, capacity, interrupts), acts)
    ensures var f := Final(Init(data, want, capacity, interrupts), acts);
      && |acts| <= interrupts + 2 * |data| + 2
      && f.sent <= |data| && |f.got| <= f.sent && f.got == data[..|f.got|]
      && (!f.writing ==> f.sent == |data| || f.refused)
      && (!f.reading ==> |f.got| == want || (!f.writing && |f.got| == f.sent < want))
  {
    var s := Init(data, want, capacity, interrupts);
    RunInv(s, acts);
    var f := Final(s, acts);
    assert f.got == data[..f.sent][..|f.got|];
    assert |f.got + f.channel| == f.sent;
  }

  ghost predicate CanMove(s: State) { exists a :: Enabled(s, a) && !a.WriteRefused? }

  // Without relying on a refused write, the calls can always go on until both have returned,
  // except that a writer waits for room for ever when the reader has all it asked for and
  // the channel is full.
  lemma StuckExactlyWhen(s: State)
    requires Inv(s) && s.capacity > 0
    ensures !CanMove(s) <==>
      !s.reading && (s.writing ==> s.sent < |s.data| && |s.channel| == s.capacity && s.interrupts == 0)
  {
    if s.reading {
      if |s.got| == s.want {
        assert Enabled(s, ReaderEnds);
      } else if s.channel != [] {
        assert Enabled(s, Read(1));
      } else if !s.writing {
        assert Enabled(s, ReadEnd);
      } else if s.interrupts > 0 {
        assert Enabled(s, ReaderInterrupted);
      }
    }
    if s.writing {
      if s.sent == |s.data| {
        assert Enabled(s, WriterEnds);
      } else if |s.channel| < s.capacity {
        assert Enabled(s, Write(1));
      } else if s.interrupts > 0 {
        assert Enabled(s, WriterInterrupted);
      }
    }
  }
}
