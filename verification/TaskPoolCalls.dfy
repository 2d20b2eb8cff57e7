// From the calls of threadpool_add to the callbacks: what is stored and executed is what the
// callers passed, judged by the actions of a run alone.

module TaskPoolCalls {
  import opened Options
  import opened TaskPool
  import opened TaskPoolProofs
  import opened TaskPoolRuns
  import opened TaskPoolLiveness

  // The arguments of all calls made in a run, in order.
  function Passed(acts: seq<Act>): seq<Task> {
    if acts == [] then []
    else (if acts[0].Produce? && acts[0].d.Call? then [acts[0].d.task] else []) + Passed(acts[1..])
  }

  // The argument that each thread passed last.
  function Remember(last: map<nat, Task>, a: Act): map<nat, Task> {
    if a.Produce? && a.d.Call? then last[a.p := a.d.task] else last
  }

  function StoredBy(a: Act, last: map<nat, Task>): seq<Task> {
    if a.Produce? && a.d.Store? && a.p in last then [last[a.p]] else []
  }

  // What a run without shutdown stores, in order: at each store, the argument of the last call
  // of the same thread.
  function Stored(acts: seq<Act>, last: map<nat, Task>): seq<Task>
    decreases |acts|
  {
    if acts == [] then [] else StoredBy(acts[0], last) + Stored(acts[1..], Remember(last, acts[0]))
  }

  // The arguments of the calls that have not returned.
  function Pending(s: Pool): seq<Option<Task>>
    requires |s.want| == |s.producers|
  {
    seq(|s.producers|, p requires 0 <= p < |s.producers| => if s.producers[p] == Idle then None else Some(s.want[p]))
  }

  // How often a task has been stored or is about to be.
  ghost function Known(s: Pool, t: Task): nat
    requires |s.want| == |s.producers|
  {
    multiset(s.accepted)[t] + multiset(Pending(s))[Some(t)]
  }

  function CallOf(a: Act, t: Task): nat { if a.Produce? && a.d == Call(t) then 1 else 0 }

  lemma KnownByOthers(s: Pool, s': Pool)
    requires |s.want| == |s.producers| == |s'.producers| && s'.want == s.want && s'.accepted == s.accepted
    requires forall p :: 0 <= p < |s.producers| ==> (s'.producers[p] == Idle <==> s.producers[p] == Idle)
    ensures forall t :: Known(s', t) == Known(s, t)
  {
    assert Pending(s') == Pending(s);
  }

  lemma KnownCall(s: Pool, p: nat, t: Task)
    requires |s.want| == |s.producers| && Enabled(s, Produce(p, Call(t)))
    ensures forall u :: Known(ProducerStep(s, p, Call(t)), u) == Known(s, u) + CallOf(Produce(p, Call(t)), u)
  {
    assert Pending(ProducerStep(s, p, Call(t))) == Pending(s)[p := Some(t)];
  }

  lemma KnownStore(s: Pool, p: nat, wake: nat)
    requires |s.want| == |s.producers| && Enabled(s, Produce(p, Store(wake))) && !s.shutdown
    ensures forall u :: Known(ProducerStep(s, p, Store(wake)), u) == Known(s, u)
  {
    var s' := ProducerStep(s, p, Store(wake));
    assert Pending(s') == Pending(s)[p := None] && Pending(s)[p] == Some(s.want[p]);
    assert multiset(s'.accepted) == multiset(s.accepted) + multiset{s.want[p]};
  }

  lemma KnownProducer(s: Pool, p: nat, d: ProducerAct)
    requires |s.want| == |s.producers| && Enabled(s, Produce(p, d)) && !s.shutdown
    ensures forall u :: Known(ProducerStep(s, p, d), u) == Known(s, u) + CallOf(Produce(p, d), u)
  {
    match d
    case Call(t) => KnownCall(s, p, t);
    case Store(wake) => KnownStore(s, p, wake);
    case _ => KnownByOthers(s, ProducerStep(s, p, d));
  }

  lemma OthersLeaveCalls(s: Pool, a: Act)
    requires Enabled(s, a) && !a.Produce?
    ensures var s' := Apply(s, a);
      && s'.accepted == s.accepted && s'.want == s.want && |s'.producers| == |s.producers|
      && forall p :: 0 <= p < |s.producers| ==> (s'.producers[p] == Idle <==> s.producers[p] == Idle)
  {
    match a
    case Work(i, w) => WorkerLeavesCalls(s, i, w);
    case Manage(m) =>
    case Outside(e) =>
  }

  lemma WorkerLeavesCalls(s: Pool, i: nat, w: WorkerAct)
    requires Enabled(s, Work(i, w))
    ensures var s' := WorkerStep(s, i, w);
      && s'.accepted == s.accepted && s'.want == s.want && |s'.producers| == |s.producers|
      && forall p :: 0 <= p < |s.producers| ==> (s'.producers[p] == Idle <==> s.producers[p] == Idle)
  {
  }

  lemma KnownStep(s: Pool, a: Act, t: Task)
    requires |s.want| == |s.producers| && Enabled(s, a) && !s.shutdown
    ensures |Apply(s, a).want| == |Apply(s, a).producers|
    ensures Known(Apply(s, a), t) == Known(s, t) + CallOf(a, t)
  {
    if a.Produce? {
      KnownProducer(s, a.p, a.d);
    } else {
      OthersLeaveCalls(s, a);
      KnownByOthers(s, Apply(s, a));
    }
  }

  lemma {:induction false} KnownRun(s: Pool, acts: seq<Act>, s': Pool, t: Task)
    requires Inv(s) && Run(s, acts, s') && !s'.shutdown
    ensures |s'.want| == |s'.producers| && Known(s', t) == Known(s, t) + multiset(Passed(acts))[t]
    decreases |acts|
  {
    if acts != [] {
      var s1 := Apply(s, acts[0]);
      NoShutdownYet(s, acts, s');
      InvStep(s, acts[0]);
      KnownStep(s, acts[0], t);
      KnownRun(s1, acts[1..], s', t);
      assert multiset(Passed(acts))[t] == CallOf(acts[0], t) + multiset(Passed(acts[1..]))[t];
    }
  }

  // In every run without shutdown: the tasks that callers have passed are, as a bag, the stored
  // ones and those of the calls that have not returned.
  lemma PassedIsStoredOrPending(s0: Pool, acts: seq<Act>, s: Pool, t: Task)
    requires Init(s0) && Run(s0, acts, s) && !s.shutdown
    ensures |s.want| == |s.producers|
    ensures multiset(Passed(acts))[t] == multiset(s.accepted)[t] + multiset(Pending(s))[Some(t)]
  {
    InitInv(s0);
    NothingPending(s0, t);
    KnownRun(s0, acts, s, t);
  }

  lemma NothingPending(s: Pool, t: Task)
    requires |s.want| == |s.producers| && forall p :: 0 <= p < |s.producers| ==> s.producers[p] == Idle
    ensures multiset(Pending(s))[Some(t)] == 0
  {
    assert Some(t) !in Pending(s);
  }

  // ---- the order ----

  // `last` knows the arguments of the calls that have not returned.
  ghost predicate Knows(s: Pool, last: map<nat, Task>) {
    |s.want| == |s.producers| && forall p: nat :: p < |s.producers| && s.producers[p] != Idle ==> p in last && last[p] == s.want[p]
  }

  lemma StoredStep(s: Pool, a: Act, last: map<nat, Task>)
    requires Knows(s, last) && Enabled(s, a) && !s.shutdown
    ensures Knows(Apply(s, a), Remember(last, a)) && Apply(s, a).accepted == s.accepted + StoredBy(a, last)
  {
    if !a.Produce? {
      OthersLeaveCalls(s, a);
    }
  }

  lemma {:induction false} StoredRun(s: Pool, acts: seq<Act>, s': Pool, last: map<nat, Task>)
    requires Knows(s, last) && Run(s, acts, s') && !s'.shutdown
    ensures s'.accepted == s.accepted + Stored(acts, last)
    decreases |acts|
  {
    if acts != [] {
      NoShutdownYet(s, acts, s');
      StoredStep(s, acts[0], last);
      StoredRun(Apply(s, acts[0]), acts[1..], s', Remember(last, acts[0]));
      Associate(s.accepted, StoredBy(acts[0], last), Stored(acts[1..], Remember(last, acts[0])));
    }
  }

  lemma Associate(a: seq<Task>, b: seq<Task>, c: seq<Task>)
    ensures a + b + c == a + (b + c)
  {
  }

  lemma NoShutdownYet(s: Pool, acts: seq<Act>, s': Pool)
    requires Run(s, acts, s') && !s'.shutdown
    ensures !s.shutdown
  {
    if s.shutdown {
      RunKeepsShutdown(s, acts, s');
    }
  }

  // The tasks are stored in the order in which the calls got the lock: what is stored is, store
  // by store, what the same thread passed last.
  lemma StoredInOrder(s0: Pool, acts: seq<Act>, s: Pool)
    requires Init(s0) && Run(s0, acts, s) && !s.shutdown
    ensures s.accepted == Stored(acts, map[])
  {
    StoredRun(s0, acts, s, map[]);
  }

  // ---- and executed ----

  lemma {:induction false} RunsInTurn(s0: Pool, a: seq<Act>, s1: Pool, b: seq<Act>, s2: Pool)
    requires Run(s0, a, s1) && Run(s1, b, s2)
    ensures Run(s0, a + b, s2)
    decreases |a|
  {
    if a == [] {
      assert a + b == b;
    } else {
      RunsInTurn(Apply(s0, a[0]), a[1..], s1, b, s2);
      assert (a + b)[1..] == a[1..] + b;
    }
  }

  lemma {:induction false} PassedInTurn(a: seq<Act>, b: seq<Act>)
    ensures Passed(a + b) == Passed(a) + Passed(b)
  {
    if a == [] {
      assert a + b == b;
    } else {
      assert (a + b)[1..] == a[1..] + b;
      PassedInTurn(a[1..], b);
    }
  }

  lemma {:induction false} InternalPassesNothing(acts: seq<Act>)
    requires forall k :: 0 <= k < |acts| ==> Internal(acts[k])
    ensures Passed(acts) == []
  {
    if acts != [] {
      assert Internal(acts[0]);
      assert forall k :: 0 <= k < |acts[1..]| ==> acts[1..][k] == acts[k + 1];
      InternalPassesNothing(acts[1..]);
    }
  }

  // A pool that is left alone after any run: when its own steps are over and none of them lost
  // a wake-up, each task was executed as often as it was passed.
  lemma EveryTaskPassedIsExecuted(s0: Pool, before: seq<Act>, s: Pool, acts: seq<Act>, s': Pool, t: Task)
    requires Init(s0) && Run(s0, before, s) && Wakeups(s) && !s.shutdown && !s.manager.Scanning?
    requires s.ring.Max() >= 1 && s.minThr >= 1
    requires InternalRun(s, acts, s') && (forall a :: Internal(a) ==> !Enabled(s', a)) && LossFree(s, acts)
    ensures multiset(s'.finished)[t] == multiset(Passed(before))[t]
  {
    AcceptedAtRest(s, acts, s');
    PassedBefore(s0, before, s, acts, s', t);
    NothingPending(s', t);
  }

  lemma PassedBefore(s0: Pool, before: seq<Act>, s: Pool, acts: seq<Act>, s': Pool, t: Task)
    requires Init(s0) && Run(s0, before, s) && InternalRun(s, acts, s') && !s'.shutdown
    ensures |s'.want| == |s'.producers|
    ensures multiset(Passed(before))[t] == multiset(s'.accepted)[t] + multiset(Pending(s'))[Some(t)]
  {
    RunsInTurn(s0, before, s, acts, s');
    PassedIsStoredOrPending(s0, before + acts, s', t);
    PassedInTurn(before, acts);
    InternalPassesNothing(acts);
    assert Passed(before) + [] == Passed(before);
  }

  lemma AcceptedAtRest(s: Pool, acts: seq<Act>, s': Pool)
    requires Reachable(s) && Wakeups(s) && !s.shutdown && !s.manager.Scanning?
    requires s.ring.Max() >= 1 && s.minThr >= 1
    requires InternalRun(s, acts, s') && (forall a :: Internal(a) ==> !Enabled(s', a)) && LossFree(s, acts)
    ensures !s'.shutdown && multiset(s'.finished) == multiset(s'.accepted)
    ensures forall p :: 0 <= p < |s'.producers| ==> s'.producers[p] == Idle
  {
    EveryTaskIsExecuted(s, acts, s');
    ReachableInv(s);
    InternalRunIsBounded(s, acts, s');
  }
}
