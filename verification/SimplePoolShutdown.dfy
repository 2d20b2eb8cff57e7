// How SimplePool ends.  Once shutdown is set no callback is entered any more; the broadcast,
// made without the lock, reaches every worker except one that has read the flag before and is
// about to wait; and each worker that it reaches takes one more task with it.

module SimplePoolShutdown {
  import opened Rings
  import opened Options
  import opened Threads
  import opened SimplePool

  // ---- which tasks are executed ----

  function InCallback(pc: WorkerPc, t: Option<Task>): Option<Task> { if pc == Running then t else None }

  // The tasks whose callbacks are running, worker by worker.
  function Callbacks(ws: seq<WorkerPc>, held: seq<Option<Task>>): seq<Option<Task>>
    requires |ws| == |held|
  {
    seq(|ws|, i requires 0 <= i < |ws| => InCallback(ws[i], held[i]))
  }

  // How often a task has been executed or is being executed.
  ghost function Executed(s: Pool, t: Task): nat
    requires |s.workers| == |s.held|
  {
    multiset(s.finished)[t] + multiset(Callbacks(s.workers, s.held))[Some(t)]
  }

  ghost predicate SameExecuted(s: Pool, s': Pool) {
    && |s.workers| == |s.held| && |s'.workers| == |s'.held|
    && forall t :: Executed(s', t) == Executed(s, t)
  }

  // A worker outside its callback, before and after, does not matter.
  lemma ExecutedElsewhere(s: Pool, s': Pool, i: nat)
    requires i < |s.workers| == |s.held| == |s'.workers| == |s'.held| && s'.finished == s.finished
    requires s'.workers == s.workers[i := s'.workers[i]] && s'.held == s.held[i := s'.held[i]]
    requires s.workers[i] != Running && s'.workers[i] != Running
    ensures SameExecuted(s, s')
  {
    assert Callbacks(s'.workers, s'.held) == Callbacks(s.workers, s.held);
  }

  lemma ExecutedWorker(s: Pool, a: Act)
    requires Shape(s) && s.shutdown && Enabled(s, a)
    requires a.Acquire? || a.ReadFlag? || a.Park? || a.ReadFlagAgain? || a.SpuriousWorker?
    ensures SameExecuted(s, Apply(s, a))
  {
    ExecutedElsewhere(s, Apply(s, a), a.i);
  }

  lemma ExecutedLeaveLoop(s: Pool, i: nat, wake: nat)
    requires Shape(s) && Enabled(s, LeaveLoop(i, wake))
    ensures SameExecuted(s, Apply(s, LeaveLoop(i, wake)))
  {
    ExecutedElsewhere(s, Apply(s, LeaveLoop(i, wake)), i);
  }

  lemma ExecutedCallback(s: Pool, i: nat)
    requires Shape(s) && Enabled(s, Execute(i))
    ensures SameExecuted(s, Apply(s, Execute(i)))
  {
    var s' := Apply(s, Execute(i));
    assert HeldOk(s.workers[i], s.held[i], s.shutdown);
    CallbackReturns(s.workers, s.held, i);
    forall t ensures Executed(s', t) == Executed(s, t) {
      assert multiset(s'.finished)[t] == multiset(s.finished)[t] + if s.held[i] == Some(t) then 1 else 0;
    }
  }

  lemma CallbackReturns(ws: seq<WorkerPc>, held: seq<Option<Task>>, i: nat)
    requires i < |ws| == |held| && ws[i] == Running
    ensures Callbacks(ws[i := Starting], held[i := None]) == Callbacks(ws, held)[i := None]
    ensures Callbacks(ws, held)[i] == held[i]
  {
  }

  lemma ExecutedSignal(s: Pool, p: nat, wake: nat)
    requires Shape(s) && Enabled(s, Signal(p, wake))
    ensures SameExecuted(s, Apply(s, Signal(p, wake)))
  {
    if Parked in s.workers {
      ExecutedElsewhere(s, Apply(s, Signal(p, wake)), wake);
    }
  }

  // With shutdown set, no step of any thread makes the execution of a task more or less
  // likely: no callback is entered any more, and those that run will return.
  lemma ExecutedStep(s: Pool, a: Act)
    requires Shape(s) && s.shutdown && Enabled(s, a)
    ensures Apply(s, a).shutdown && SameExecuted(s, Apply(s, a))
  {
    match a
    case LeaveLoop(i, wake) => ExecutedLeaveLoop(s, i, wake);
    case Execute(i) => ExecutedCallback(s, i);
    case Signal(p, wake) => ExecutedSignal(s, p, wake);
    case Broadcast => assert Callbacks(WakeAll(s.workers), s.held) == Callbacks(s.workers, s.held);
    case Call(_, _) | TryAdd(_) | SpuriousProducer(_) | SetShutdown =>
    case _ => ExecutedWorker(s, a);
  }

  lemma {:induction false} RunExecutes(s0: Pool, acts: seq<Act>, s: Pool)
    requires Inv(s0) && s0.shutdown && Run(s0, acts, s)
    ensures s.shutdown && SameExecuted(s0, s)
    decreases |acts|
  {
    if acts != [] {
      var s1 := Apply(s0, acts[0]);
      InvStep(s0, acts[0]);
      ExecutedStep(s0, acts[0]);
      RunExecutes(s1, acts[1..], s);
      assert forall t :: Executed(s, t) == Executed(s1, t) == Executed(s0, t);
    }
  }

  lemma NoCallbacks(s: Pool, t: Task)
    requires |s.workers| == |s.held| && Running !in s.workers
    ensures Executed(s, t) == multiset(s.finished)[t]
  {
    assert Some(t) !in Callbacks(s.workers, s.held);
  }

  // In every run from a state with shutdown set, whatever other threads do: a task is executed
  // if and only if it was finished or in its callback in that state.
  lemma ShutdownExecutesOnlyCallbacks(s0: Pool, acts: seq<Act>, s: Pool, t: Task)
    requires Reachable(s0) && s0.shutdown && Run(s0, acts, s)
    ensures |s0.workers| == |s0.held| && multiset(s.finished)[t] <= Executed(s0, t)
    ensures Running !in s.workers ==> multiset(s.finished)[t] == Executed(s0, t)
  {
    ReachableInv(s0);
    RunExecutes(s0, acts, s);
    assert Executed(s, t) == Executed(s0, t);
    if Running !in s.workers {
      NoCallbacks(s, t);
    }
  }

  // ---- which workers end ----

  ghost predicate NoCalls(s: Pool) { forall p :: 0 <= p < |s.producers| ==> s.producers[p] == Idle }

  predicate Missed(pc: WorkerPc) { pc == WillWait || pc == Parked }

  // After the broadcast, made when the workers were at `before`: only those that were about
  // to wait are waiting or about to.
  ghost predicate Stopping(before: seq<WorkerPc>, s: Pool) {
    && s.shutdown && NoCalls(s) && |s.workers| == |before|
    && forall i :: 0 <= i < |before| ==> (Missed(s.workers[i]) <==> before[i] == WillWait)
  }

  lemma StoppingStep(before: seq<WorkerPc>, s: Pool, a: Act)
    requires Stopping(before, s) && Enabled(s, a) && Internal(a)
    ensures Stopping(before, Apply(s, a))
  {
    assert WaitingRoom !in s.producers;
  }

  lemma {:induction false} StoppingRun(before: seq<WorkerPc>, s: Pool, acts: seq<Act>, s': Pool)
    requires Stopping(before, s) && InternalRun(s, acts, s')
    ensures Stopping(before, s')
    decreases |acts|
  {
    if acts != [] {
      assert Internal(acts[0]);
      StoppingStep(before, s, acts[0]);
      assert forall k :: 0 <= k < |acts[1..]| ==> acts[1..][k] == acts[k + 1];
      StoppingRun(before, Apply(s, acts[0]), acts[1..], s');
    }
  }

  // A worker that neither waits nor has exited can move, or the holder of the lock can.
  lemma SomeoneCanMove(s: Pool, i: nat) returns (a: Act)
    requires Inv(s) && i < |s.workers| && s.workers[i] != Parked && s.workers[i] != Exited
    ensures Internal(a) && Enabled(s, a)
  {
    if s.locked {
      assert SawEmpty in s.workers || WillWait in s.workers || PastLoop in s.workers || AtExit in s.workers;
      var h: nat :| h < |s.workers| && s.workers[h] in {SawEmpty, WillWait, PastLoop, AtExit};
      a := WorkerCanMove(s, h);
    } else {
      a := WorkerCanMove(s, i);
    }
  }

  // With no call of addtask going on, whatever the scheduling: after the broadcast the
  // workers take a bounded number of steps, and then a worker has exited if and only if it
  // was not between its read of the flag and its wait when the broadcast was made.  That one
  // waits for ever.
  lemma ShutdownMissesOnlyWillWait(s0: Pool, acts: seq<Act>, s: Pool)
    requires Reachable(s0) && s0.shutdown && NoCalls(s0)
    requires InternalRun(Apply(s0, Broadcast), acts, s)
    ensures |acts| <= Measure(Apply(s0, Broadcast)) && |s.workers| == |s0.workers|
    ensures (forall a :: Internal(a) ==> !Enabled(s, a)) ==>
              forall i :: 0 <= i < |s.workers| ==> s.workers[i] == if s0.workers[i] == WillWait then Parked else Exited
  {
    var s1 := Apply(s0, Broadcast);
    BroadcastKeepsInv(s0);
    InternalRunIsBounded(s1, acts, s);
    RunInv(s1, acts, s);
    MeasureNonNegative(s);
    StoppingRun(s0.workers, s1, acts, s);
    if forall a :: Internal(a) ==> !Enabled(s, a) {
      forall i | 0 <= i < |s.workers|
        ensures s.workers[i] == if s0.workers[i] == WillWait then Parked else Exited
      {
        if s.workers[i] != Parked && s.workers[i] != Exited {
          var a := SomeoneCanMove(s, i);
          assert false;
        }
      }
    }
  }

  // All of them exit if and only if none was about to wait.
  lemma EveryWorkerExits(s0: Pool, acts: seq<Act>, s: Pool)
    requires Reachable(s0) && s0.shutdown && NoCalls(s0)
    requires InternalRun(Apply(s0, Broadcast), acts, s) && forall a :: Internal(a) ==> !Enabled(s, a)
    ensures (forall pc :: pc in s.workers ==> pc == Exited) <==> WillWait !in s0.workers
  {
    ShutdownMissesOnlyWillWait(s0, acts, s);
    if WillWait in s0.workers {
      var i :| 0 <= i < |s0.workers| && s0.workers[i] == WillWait;
      assert s.workers[i] in s.workers;
    }
  }

  // ---- which tasks are dropped, and which stay queued ----

  // Workers that will still pass the dequeue.
  function ToPass(pc: WorkerPc): nat {
    match pc
    case Starting | Woken | SawEmpty | PastLoop | Running => 1
    case WillWait | Parked | AtExit | Exited => 0
  }

  // The tasks that are still queued when all of them have passed.
  function Left(s: Pool): int {
    if s.ring.num > Sum(s.workers, ToPass) then s.ring.num - Sum(s.workers, ToPass) else 0
  }

  lemma LeftLeaveLoop(s: Pool, i: nat, wake: nat)
    requires Inv(s) && Enabled(s, LeaveLoop(i, wake))
    ensures Left(Apply(s, LeaveLoop(i, wake))) == Left(s) && Apply(s, LeaveLoop(i, wake)).accepted == s.accepted
  {
    SumUpdate(s.workers, i, AtExit, ToPass);
  }

  lemma LeftWorker(s: Pool, a: Act)
    requires Inv(s) && s.shutdown && Enabled(s, a)
    requires a.Acquire? || a.ReadFlag? || a.Park? || a.ReadFlagAgain? || a.Execute?
    ensures Left(Apply(s, a)) == Left(s) && Apply(s, a).accepted == s.accepted
  {
    SumUpdate(s.workers, a.i, Apply(s, a).workers[a.i], ToPass);
  }

  lemma LeftStep(before: seq<WorkerPc>, s: Pool, a: Act)
    requires Inv(s) && Stopping(before, s) && Enabled(s, a) && Internal(a)
    ensures Left(Apply(s, a)) == Left(s) && Apply(s, a).accepted == s.accepted
  {
    if a.LeaveLoop? {
      LeftLeaveLoop(s, a.i, a.wake);
    } else if !a.TryAdd? && !a.Signal? {
      LeftWorker(s, a);
    }
  }

  lemma {:induction false} LeftRun(before: seq<WorkerPc>, s: Pool, acts: seq<Act>, s': Pool)
    requires Inv(s) && Stopping(before, s) && InternalRun(s, acts, s')
    ensures Left(s') == Left(s) && s'.accepted == s.accepted
    decreases |acts|
  {
    if acts != [] {
      assert Internal(acts[0]);
      InvStep(s, acts[0]);
      StoppingStep(before, s, acts[0]);
      LeftStep(before, s, acts[0]);
      assert forall k :: 0 <= k < |acts[1..]| ==> acts[1..][k] == acts[k + 1];
      LeftRun(before, Apply(s, acts[0]), acts[1..], s');
    }
  }

  lemma {:induction false} AllPassed(ws: seq<WorkerPc>)
    requires forall i :: 0 <= i < |ws| ==> ws[i] == Parked || ws[i] == Exited
    ensures Sum(ws, ToPass) == 0
  {
    if ws != [] {
      AllPassed(ws[1..]);
    }
  }

  // At rest, the stored tasks are those that were taken and, after them, Left(s) queued ones;
  // the taken ones are finished or dropped.
  lemma TasksAtRest(s: Pool)
    requires Inv(s) && forall i :: 0 <= i < |s.workers| ==> s.workers[i] == Parked || s.workers[i] == Exited
    ensures |s.ring.Queue()| == Left(s) && s.accepted == s.taken + s.ring.Queue()
    ensures forall t :: multiset(s.taken)[t] == multiset(s.finished)[t] + multiset(s.dropped)[t]
  {
    AllPassed(s.workers);
    forall t ensures multiset(s.taken)[t] == multiset(s.finished)[t] + multiset(s.dropped)[t] {
      assert forall i :: 0 <= i < |s.workers| ==> HeldOk(s.workers[i], s.held[i], s.shutdown);
      assert Some(t) !in s.held;
      assert multiset(s.taken)[t] == Fate(s, t);
    }
  }

  // With no call of addtask going on, whatever the scheduling, the end is this: executed are
  // the tasks that were finished or in their callbacks when shutdown was set; still queued
  // are the last ones, as many as there are more tasks than workers to pass the dequeue; all
  // others are dropped.
  lemma TasksAfterShutdown(s0: Pool, acts: seq<Act>, s: Pool)
    requires Reachable(s0) && s0.shutdown && NoCalls(s0)
    requires InternalRun(Apply(s0, Broadcast), acts, s) && forall a :: Internal(a) ==> !Enabled(s, a)
    ensures |s0.workers| == |s0.held| && s.ring.Valid() && s.accepted == s0.accepted
    ensures |s.ring.Queue()| == Left(Apply(s0, Broadcast)) && s.accepted == s.taken + s.ring.Queue()
    ensures forall t :: multiset(s.finished)[t] == Executed(s0, t)
    ensures forall t :: multiset(s.dropped)[t] == multiset(s.taken)[t] - Executed(s0, t)
  {
    RestAfterShutdown(s0, acts, s);
    TasksAtRest(s);
    forall t
      ensures multiset(s.finished)[t] == Executed(s0, t)
    {
      FinishedAtRest(s0, acts, s, t);
    }
  }

  lemma RestAfterShutdown(s0: Pool, acts: seq<Act>, s: Pool)
    requires Reachable(s0) && s0.shutdown && NoCalls(s0)
    requires InternalRun(Apply(s0, Broadcast), acts, s) && forall a :: Internal(a) ==> !Enabled(s, a)
    ensures Inv(s0) && Inv(s) && Left(s) == Left(Apply(s0, Broadcast)) && s.accepted == s0.accepted
    ensures forall i :: 0 <= i < |s.workers| ==> s.workers[i] == Parked || s.workers[i] == Exited
  {
    ShutdownMissesOnlyWillWait(s0, acts, s);
    BroadcastKeepsInv(s0);
    RunInv(Apply(s0, Broadcast), acts, s);
    LeftRun(s0.workers, Apply(s0, Broadcast), acts, s);
  }

  lemma BroadcastKeepsInv(s0: Pool)
    requires Reachable(s0) && s0.shutdown && NoCalls(s0)
    ensures Inv(s0) && Inv(Apply(s0, Broadcast)) && Stopping(s0.workers, Apply(s0, Broadcast))
    ensures Apply(s0, Broadcast).accepted == s0.accepted
  {
    ReachableInv(s0);
    InvStep(s0, Broadcast);
  }

  lemma FinishedAtRest(s0: Pool, acts: seq<Act>, s: Pool, t: Task)
    requires Inv(s0) && s0.shutdown && Run(Apply(s0, Broadcast), acts, s) && Running !in s.workers
    ensures multiset(s.finished)[t] == Executed(s0, t)
  {
    var s1 := Apply(s0, Broadcast);
    InvStep(s0, Broadcast);
    ExecutedStep(s0, Broadcast);
    RunExecutes(s1, acts, s);
    assert Executed(s, t) == Executed(s1, t) == Executed(s0, t);
    NoCallbacks(s, t);
  }

  // ---- both failures happen ----

  lemma {:induction false} Go(s0: Pool, acts: seq<Act>, s: Pool, a: Act)
    requires Run(s0, acts, s) && Enabled(s, a)
    ensures Run(s0, acts + [a], Apply(s, a))
    decreases |acts|
  {
    if acts == [] {
      assert acts + [a] == [a] && Run(Apply(s, a), [], Apply(s, a));
    } else {
      Go(Apply(s0, acts[0]), acts[1..], s, a);
      assert (acts + [a])[1..] == acts[1..] + [a];
    }
  }

  lemma Next(s: Pool, a: Act) returns (s': Pool)
    requires Reachable(s) && Enabled(s, a)
    ensures Reachable(s') && s' == Apply(s, a)
  {
    var s0, acts :| Init(s0) && Run(s0, acts, s);
    Go(s0, acts, s, a);
    s' := Apply(s, a);
  }

  // One worker, one caller, room for one task.
  lemma Small() returns (s: Pool)
    ensures Reachable(s) && !s.shutdown && !s.locked && s.workers == [Starting] && s.producers == [Idle]
    ensures s.held == [None] && s.want == [0] && s.ring == Counters([Task(0, 0)], 0, 0, 0) && s.num == 0
    ensures s.accepted == s.taken == s.finished == s.dropped == []
  {
    s := Pool(Counters([Task(0, 0)], 0, 0, 0), 0, false, false, [Starting], [None], [Idle], [0], [], [], [], []);
    assert Init(s) && Run(s, [], s);
  }

  // A worker is about to wait when shutdown is set and the broadcast made.
  lemma BroadcastCanMiss() returns (s: Pool)
    ensures Reachable(s) && s.shutdown && NoCalls(s) && WillWait in s.workers
  {
    s := Small();
    s := Next(s, Acquire(0));
    assert s.workers == [SawEmpty];
    s := Next(s, ReadFlag(0));
    assert s.workers == [WillWait];
    s := Next(s, SetShutdown);
  }

  // The worker has taken the only task and is about to read shutdown.
  lemma TaskInHand() returns (s: Pool)
    ensures Reachable(s) && !s.shutdown && s.workers == [AtExit] && s.held == [Some(Task(0, 0))]
    ensures s.accepted == [Task(0, 0)] && s.finished == s.dropped == []
  {
    s := TaskQueued();
    s := Next(s, Acquire(0));
    assert s.workers == [PastLoop];
    s := Next(s, LeaveLoop(0, 0));
    assert s.workers == [AtExit] && s.held == [Some(Task(0, 0))];
  }

  lemma TaskQueued() returns (s: Pool)
    ensures Reachable(s) && !s.shutdown && !s.locked && s.workers == [Starting] && s.producers == [Idle] && s.held == [None]
    ensures s.ring == Counters([Task(0, 0)], 1, 0, 1) && s.accepted == [Task(0, 0)] && s.finished == s.dropped == []
  {
    s := Small();
    s := Next(s, Call(0, 0));
    s := Next(s, TryAdd(0));
    s := Next(s, Signal(0, 0));
    assert s.producers == [Idle];
  }

  // A stored task is dropped and never executed.
  lemma TaskCanBeDropped() returns (s: Pool)
    ensures Reachable(s) && s.accepted == [Task(0, 0)] == s.dropped && s.finished == []
  {
    s := TaskInHand();
    s := Next(s, SetShutdown);
    s := Next(s, ReadFlagAgain(0));
  }
}
