// From the calls of addtask to the callbacks: the descriptors that are stored and executed are
// those the callers passed, judged by the actions of a run alone.

module SimplePoolCalls {
  import opened Options
  import opened Threads
  import opened SimplePool

  // The descriptors passed by all calls of a run, in order.
  function Passed(acts: seq<Act>): seq<int> {
    if acts == [] then [] else (if acts[0].Call? then [acts[0].fd] else []) + Passed(acts[1..])
  }

  function Fds(ts: seq<Task>): seq<int> { seq(|ts|, k requires 0 <= k < |ts| => ts[k].fd) }

  // A call that has not stored its task.
  predicate Calls(pc: ProducerPc) { pc == Calling || pc == WaitingRoom || pc == Notified }

  function Pending(s: Pool): seq<Option<int>>
    requires |s.want| == |s.producers|
  {
    seq(|s.producers|, p requires 0 <= p < |s.producers| => if Calls(s.producers[p]) then Some(s.want[p]) else None)
  }

  // How often a descriptor has been stored or is about to be.
  ghost function Known(s: Pool, fd: int): nat
    requires |s.want| == |s.producers|
  {
    multiset(Fds(s.accepted))[fd] + multiset(Pending(s))[Some(fd)]
  }

  function CallOf(a: Act, fd: int): nat { if a.Call? && a.fd == fd then 1 else 0 }

  lemma KnownByOthers(s: Pool, s': Pool, fd: int)
    requires |s.want| == |s.producers| == |s'.producers| && s'.want == s.want && s'.accepted == s.accepted
    requires forall p :: 0 <= p < |s.producers| ==> (Calls(s'.producers[p]) <==> Calls(s.producers[p]))
    ensures Known(s', fd) == Known(s, fd)
  {
    assert Pending(s') == Pending(s);
  }

  lemma KnownCall(s: Pool, p: nat, t: int, fd: int)
    requires |s.want| == |s.producers| && Enabled(s, Call(p, t))
    ensures Known(Apply(s, Call(p, t)), fd) == Known(s, fd) + CallOf(Call(p, t), fd)
  {
    assert Pending(Apply(s, Call(p, t))) == Pending(s)[p := Some(t)];
  }

  lemma KnownAdd(s: Pool, p: nat, fd: int)
    requires |s.want| == |s.producers| && Enabled(s, TryAdd(p)) && s.ring.num < s.ring.Max()
    ensures Known(AddTask(s, p), fd) == Known(s, fd)
  {
    var s' := AddTask(s, p);
    assert Pending(s') == Pending(s)[p := None] && Pending(s)[p] == Some(s.want[p]);
    assert Fds(s'.accepted) == Fds(s.accepted) + [s.want[p]];
  }

  lemma KnownLeaveLoop(s: Pool, i: nat, wake: nat, fd: int)
    requires |s.want| == |s.producers| && Enabled(s, LeaveLoop(i, wake))
    ensures Known(Apply(s, LeaveLoop(i, wake)), fd) == Known(s, fd)
  {
    KnownByOthers(s, Apply(s, LeaveLoop(i, wake)), fd);
  }

  lemma KnownStep(s: Pool, a: Act, fd: int)
    requires |s.want| == |s.producers| && Enabled(s, a)
    ensures |Apply(s, a).want| == |Apply(s, a).producers| && Known(Apply(s, a), fd) == Known(s, fd) + CallOf(a, fd)
  {
    match a
    case Call(p, t) => KnownCall(s, p, t, fd);
    case TryAdd(p) => if s.ring.num < s.ring.Max() { KnownAdd(s, p, fd); } else { KnownByOthers(s, Apply(s, a), fd); }
    case LeaveLoop(i, wake) => KnownLeaveLoop(s, i, wake, fd);
    case _ => KnownElsewhere(s, a, fd);
  }

  lemma KnownElsewhere(s: Pool, a: Act, fd: int)
    requires |s.want| == |s.producers| && Enabled(s, a) && !a.Call? && !a.TryAdd? && !a.LeaveLoop?
    ensures |Apply(s, a).want| == |Apply(s, a).producers| && Known(Apply(s, a), fd) == Known(s, fd)
  {
    KnownByOthers(s, Apply(s, a), fd);
  }

  lemma {:induction false} KnownRun(s: Pool, acts: seq<Act>, s': Pool, fd: int)
    requires |s.want| == |s.producers| && Run(s, acts, s')
    ensures |s'.want| == |s'.producers| && Known(s', fd) == Known(s, fd) + multiset(Passed(acts))[fd]
    decreases |acts|
  {
    if acts != [] {
      KnownStep(s, acts[0], fd);
      KnownRun(Apply(s, acts[0]), acts[1..], s', fd);
      assert multiset(Passed(acts))[fd] == CallOf(acts[0], fd) + multiset(Passed(acts[1..]))[fd];
    }
  }

  // In every run, shutdown or not: the descriptors that callers have passed are, as a bag,
  // those of the stored tasks and those of the calls that have not stored theirs.
  lemma PassedIsStoredOrPending(s0: Pool, acts: seq<Act>, s: Pool, fd: int)
    requires Init(s0) && Run(s0, acts, s)
    ensures |s.want| == |s.producers|
    ensures multiset(Passed(acts))[fd] == multiset(Fds(s.accepted))[fd] + multiset(Pending(s))[Some(fd)]
  {
    KnownRun(s0, acts, s, fd);
    assert Some(fd) !in Pending(s0);
  }

  // ---- the order ----

  function Remember(last: map<nat, int>, a: Act): map<nat, int> { if a.Call? then last[a.p := a.fd] else last }

  // `last` knows the descriptors of the calls that have not stored them.
  ghost predicate Knows(s: Pool, last: map<nat, int>) {
    && |s.want| == |s.producers|
    && forall p: nat :: p < |s.producers| && Calls(s.producers[p]) ==> p in last && last[p] == s.want[p]
  }

  // A call stores the descriptor that its thread passed last, under the next number.
  lemma StoresWhatWasPassed(s: Pool, a: Act, last: map<nat, int>)
    requires Knows(s, last) && Enabled(s, a)
    ensures Knows(Apply(s, a), Remember(last, a))
    ensures Apply(s, a).accepted == s.accepted
      || (a.TryAdd? && a.p in last && Apply(s, a).accepted == s.accepted + [Task(s.num, last[a.p])])
  {
    if a.LeaveLoop? {
      LeaveLoopKnows(s, a.i, a.wake, last);
    }
  }

  lemma LeaveLoopKnows(s: Pool, i: nat, wake: nat, last: map<nat, int>)
    requires Knows(s, last) && Enabled(s, LeaveLoop(i, wake))
    ensures Knows(Apply(s, LeaveLoop(i, wake)), last) && Apply(s, LeaveLoop(i, wake)).accepted == s.accepted
  {
  }

  // ---- signals ----

  // A signal wakes one waiting thread if there is one: a worker after each store, a caller after
  // each task taken.
  lemma SignalWakesOne(s: Pool, p: nat, wake: nat)
    requires Enabled(s, Signal(p, wake))
    ensures var n := if Parked in s.workers then 1 else 0;
      && Count(Apply(s, Signal(p, wake)).workers, Parked) == Count(s.workers, Parked) - n
      && Count(Apply(s, Signal(p, wake)).workers, Woken) == Count(s.workers, Woken) + n
  {
  }

  lemma TakeWakesOne(s: Pool, i: nat, wake: nat)
    requires Enabled(s, LeaveLoop(i, wake))
    ensures var n := if s.ring.num != 0 && WaitingRoom in s.producers then 1 else 0;
      && Count(Apply(s, LeaveLoop(i, wake)).producers, WaitingRoom) == Count(s.producers, WaitingRoom) - n
      && Count(Apply(s, LeaveLoop(i, wake)).producers, Notified) == Count(s.producers, Notified) + n
  {
  }

  // ---- and executed ----

  lemma {:induction false} RunsInTurn(s0: Pool, a: seq<Act>, s1: Pool, b: seq<Act>, s2: Pool)
    requires Run(s0, a, s1) && Run(s1, b, s2)
    ensures Run(s0, a + b, s2) && Passed(a + b) == Passed(a) + Passed(b)
    decreases |a|
  {
    if a == [] {
      assert a + b == b;
    } else {
      RunsInTurn(Apply(s0, a[0]), a[1..], s1, b, s2);
      assert (a + b)[1..] == a[1..] + b;
    }
  }

  lemma {:induction false} InternalPassesNothing(acts: seq<Act>)
    requires forall k :: 0 <= k < |acts| ==> Internal(acts[k])
    ensures Passed(acts) == []
  {
    if acts != [] {
      assert Internal(acts[0]);
      assert forall k :: 0 <= k < |acts[1..]| ==> acts[1..][k] == acts[k + 1];
      InternalPassesNothing(acts[1..]);
    }
  }

  lemma OneLess(us: seq<Task>, k: nat)
    requires k < |us|
    ensures var rest := us[..k] + us[k + 1..];
      && multiset(us) == multiset(rest) + multiset{us[k]}
      && multiset(Fds(us)) == multiset(Fds(rest)) + multiset{us[k].fd}
  {
    var a, b, t := us[..k], us[k + 1..], us[k];
    assert us == a + [t] + b;
    assert Fds(us) == Fds(a) + [t.fd] + Fds(b) && Fds(a + b) == Fds(a) + Fds(b);
  }

  lemma {:induction false} FdsCount(ts: seq<Task>, us: seq<Task>)
    requires multiset(ts) == multiset(us)
    ensures multiset(Fds(ts)) == multiset(Fds(us))
    decreases |ts|
  {
    if ts == [] {
      assert |us| == |multiset(us)| == 0;
    } else {
      assert ts[0] in multiset(us);
      var k :| 0 <= k < |us| && us[k] == ts[0];
      OneLess(ts, 0);
      OneLess(us, k);
      var rest := ts[..0] + ts[1..];
      assert multiset(rest) == multiset(us) - multiset{ts[0]};
      FdsCount(rest, us[..k] + us[k + 1..]);
    }
  }

  // A pool that is left alone after any run without shutdown: when its own steps are over, each
  // descriptor was handed to a callback as often as it was passed.
  lemma EveryTaskPassedIsExecuted(s0: Pool, before: seq<Act>, s: Pool, acts: seq<Act>, s': Pool, fd: int)
    requires Init(s0) && Run(s0, before, s) && !s.shutdown && s.ring.Max() >= 1 && |s.workers| >= 1
    requires InternalRun(s, acts, s') && forall a :: Internal(a) ==> !Enabled(s', a)
    ensures multiset(Fds(s'.finished))[fd] == multiset(Passed(before))[fd]
  {
    EveryTaskIsExecuted(s, acts, s');
    FdsCount(s'.finished, s'.accepted);
    RunsInTurn(s0, before, s, acts, s');
    PassedIsStoredOrPending(s0, before + acts, s', fd);
    InternalPassesNothing(acts);
    assert Passed(before) + [] == Passed(before);
    assert Some(fd) !in Pending(s');
  }
}
