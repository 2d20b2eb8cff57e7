// How TaskPool ends.  Once shutdown is set no task is dequeued any more; the broadcast reaches
// the workers that wait, but not one that has read the flag before and is about to; and
// nobody tells a caller that waits for room.

module TaskPoolShutdown {
  import opened Options
  import opened Threads
  import opened TaskPool
  import opened TaskPoolProofs
  import opened TaskPoolLiveness
  import opened TaskPoolLostWakeup

  // ---- callers ----

  predicate Strands(pc: ProducerPc) { pc == WaitingRoom || pc == WillSleep }

  // Under every step of any thread but a spurious wake-up of the caller itself: a call that
  // waits for room when shutdown is set does so for ever.
  lemma WaitingCallStays(s: Pool, a: Act, p: nat)
    requires s.shutdown && Enabled(s, a) && At(s.producers, p, WaitingRoom) && a != Outside(SpuriousProducer(p))
    ensures Apply(s, a).shutdown && At(Apply(s, a).producers, p, WaitingRoom)
  {
    match a
    case Work(i, w) =>
    case Produce(q, d) =>
    case Manage(m) =>
    case Outside(e) =>
  }

  lemma {:induction false} WaitingCallNeverReturns(s: Pool, acts: seq<Act>, s': Pool, p: nat)
    requires s.shutdown && Run(s, acts, s') && At(s.producers, p, WaitingRoom)
    requires forall k :: 0 <= k < |acts| ==> acts[k] != Outside(SpuriousProducer(p))
    ensures At(s'.producers, p, WaitingRoom)
    decreases |acts|
  {
    if acts != [] {
      WaitingCallStays(s, acts[0], p);
      assert forall k :: 0 <= k < |acts[1..]| ==> acts[1..][k] == acts[k + 1];
      WaitingCallNeverReturns(Apply(s, acts[0]), acts[1..], s', p);
    }
  }

  // A call that finds shutdown set gives up, stores nothing and wakes every waiting worker.
  lemma GivingUpWakesAll(s: Pool, p: nat, wake: nat)
    requires Enabled(s, Produce(p, Store(wake))) && s.shutdown
    ensures var s' := Apply(s, Produce(p, Store(wake)));
      && s'.producers[p] == Idle && s'.ring == s.ring && s'.accepted == s.accepted && Parked !in s'.workers
      && Count(s'.workers, Woken) == Count(s.workers, Woken) + Count(s.workers, Parked)
  {
    AllWoken(s.workers);
  }

  lemma {:induction false} AllWoken(ws: seq<WorkerPc>)
    ensures Count(WakeWorkers(ws), Woken) == Count(ws, Woken) + Count(ws, Parked)
  {
    if ws != [] {
      var n := |ws| - 1;
      assert ws == ws[..n] + [ws[n]];
      assert WakeWorkers(ws) == WakeWorkers(ws[..n]) + [if ws[n] == Parked then Woken else ws[n]];
      AllWoken(ws[..n]);
    }
  }

  // ---- all threads, after the broadcast ----

  // No call is going on that could still broadcast: each has returned or is stranded.
  ghost predicate NoCalls(s: Pool) {
    forall p :: 0 <= p < |s.producers| ==> s.producers[p] == Idle || Strands(s.producers[p])
  }

  predicate Missed(pc: WorkerPc) { pc == WillWait || pc == Parked }

  // Since the broadcast, made in state `s0`.
  ghost predicate Stopping(s0: Pool, s: Pool) {
    && s.shutdown && |s.producers| == |s0.producers| && |s.workers| == |s0.workers| == |s.held|
    && (forall p :: 0 <= p < |s.producers| ==> (Strands(s.producers[p]) <==> Strands(s0.producers[p])))
    && (NoCalls(s0) ==> NoCalls(s))
    && (NoCalls(s0) ==> forall i :: 0 <= i < |s.workers| ==> (Missed(s.workers[i]) <==> s0.workers[i] == WillWait))
    && s.ring == s0.ring && s.taken == s0.taken
  }

  lemma StoppingWorker(s0: Pool, s: Pool, i: nat, w: WorkerAct)
    requires Stopping(s0, s) && Enabled(s, Work(i, w))
    ensures Stopping(s0, WorkerStep(s, i, w))
  {
  }

  lemma StoppingProducer(s0: Pool, s: Pool, p: nat, d: ProducerAct)
    requires Stopping(s0, s) && Enabled(s, Produce(p, d)) && !d.Call?
    ensures Stopping(s0, ProducerStep(s, p, d))
  {
    assert NoCalls(s) && d.Store? ==> Strands(s.producers[p]) || s.producers[p] == Idle;
  }

  lemma {:induction false} StoppingRun(s0: Pool, s: Pool, acts: seq<Act>, s': Pool)
    requires Stopping(s0, s) && InternalRun(s, acts, s')
    ensures Stopping(s0, s')
    decreases |acts|
  {
    if acts != [] {
      assert Internal(acts[0]);
      match acts[0] {
        case Work(i, w) => StoppingWorker(s0, s, i, w);
        case Produce(p, d) => StoppingProducer(s0, s, p, d);
      }
      assert forall k :: 0 <= k < |acts[1..]| ==> acts[1..][k] == acts[k + 1];
      StoppingRun(s0, Apply(s, acts[0]), acts[1..], s');
    }
  }

  lemma RestAfterShutdown(s0: Pool, acts: seq<Act>, s: Pool)
    requires Reachable(s0) && s0.shutdown && !s0.manager.Scanning?
    requires InternalRun(Apply(s0, Outside(Broadcast)), acts, s)
    ensures |acts| <= Measure(Apply(s0, Outside(Broadcast))) && Inv(s) && Stopping(s0, s)
    ensures (forall a :: Internal(a) ==> !Enabled(s, a)) ==> AtRest(s)
  {
    var s1 := Apply(s0, Outside(Broadcast));
    BroadcastIsMade(s0);
    InternalRunIsBounded(s1, acts, s);
    RunInv(s1, acts, s);
    MeasureNonNegative(s);
    StoppingRun(s0, s1, acts, s);
    if !AtRest(s) {
      var a := MoveUnlessAtRest(s);
    }
  }

  lemma BroadcastIsMade(s0: Pool)
    requires Reachable(s0) && s0.shutdown
    ensures Inv(Apply(s0, Outside(Broadcast))) && Stopping(s0, Apply(s0, Outside(Broadcast)))
  {
    ReachableInv(s0);
    InvStep(s0, Outside(Broadcast));
    BroadcastStops(s0);
  }

  lemma BroadcastStops(s0: Pool)
    requires s0.shutdown && |s0.held| == |s0.workers|
    ensures Stopping(s0, Apply(s0, Outside(Broadcast)))
  {
  }

  // Whatever the scheduling: after the broadcast the threads take a bounded number of steps,
  // and then a call has returned if and only if it was not waiting for room, or about to,
  // when the broadcast was made.  With no other call going on, a worker has ended if and only
  // if it was not between its read of the flag and its wait.
  lemma ShutdownMisses(s0: Pool, acts: seq<Act>, s: Pool)
    requires Reachable(s0) && s0.shutdown && !s0.manager.Scanning?
    requires InternalRun(Apply(s0, Outside(Broadcast)), acts, s)
    ensures |acts| <= Measure(Apply(s0, Outside(Broadcast)))
    ensures |s.workers| == |s0.workers| && |s.producers| == |s0.producers|
    ensures (forall a :: Internal(a) ==> !Enabled(s, a)) ==>
              && (forall p :: 0 <= p < |s.producers| ==>
                    s.producers[p] == if Strands(s0.producers[p]) then WaitingRoom else Idle)
              && (NoCalls(s0) ==> forall i :: 0 <= i < |s.workers| ==>
                    if s0.workers[i] == WillWait then s.workers[i] == Parked
                    else s.workers[i] == QuitDead || s.workers[i] == RetiredDead)
  {
    RestAfterShutdown(s0, acts, s);
    if forall a :: Internal(a) ==> !Enabled(s, a) {
      assert forall p :: 0 <= p < |s.producers| ==> ProducerRests(s.producers[p]);
      assert forall i :: 0 <= i < |s.workers| ==> WorkerRests(s.workers[i]);
    }
  }

  // The tasks that had been fetched are executed; those in the queue stay there.
  lemma FetchedTasksAreExecuted(s0: Pool, acts: seq<Act>, s: Pool)
    requires Reachable(s0) && s0.shutdown && !s0.manager.Scanning?
    requires InternalRun(Apply(s0, Outside(Broadcast)), acts, s) && forall a :: Internal(a) ==> !Enabled(s, a)
    ensures s.ring == s0.ring && multiset(s.finished) == multiset(s0.taken)
  {
    RestAfterShutdown(s0, acts, s);
    forall t ensures multiset(s.taken)[t] == multiset(s.finished)[t] {
      assert forall i :: 0 <= i < |s.workers| ==> WorkerRests(s.workers[i]) && s.held[i].Some? == HasTask(s.workers[i]);
      assert Some(t) !in s.held;
    }
  }

  // ---- both failures happen ----

  // A call waits for room when shutdown is set.
  lemma CallCanBeStranded() returns (s: Pool)
    ensures Reachable(s) && s.shutdown && At(s.producers, 0, WaitingRoom)
  {
    s := Empty(0, 1);
    s := AddOne(s, 0);
    s := Go(s, Produce(0, Call(0)));
    s := Go(s, Produce(0, LockQueue));
    s := Go(s, Produce(0, ReadFlagFull));
    s := Go(s, Produce(0, Sleep));
    s := Go(s, Outside(SetShutdown));
  }

  // A worker is about to wait when shutdown is set and the broadcast made.
  lemma BroadcastCanMiss() returns (s: Pool)
    ensures Reachable(s) && s.shutdown && !s.manager.Scanning? && NoCalls(s) && WillWait in s.workers
  {
    s := TaskPoolLostWakeup.Start();
    s := Go(s, Work(0, Lock));
    s := Go(s, Work(0, ReadFlag));
    assert s.workers == [WillWait];
    s := Go(s, Outside(SetShutdown));
  }
}
