// TaskPool left alone: no new calls, no manager, no spurious wake-ups.  Its own steps come
// to an end, and then everything is done - unless a wake-up was lost on the way.

module TaskPoolLiveness {
  import opened Options
  import opened Threads
  import opened TaskPool
  import opened TaskPoolProofs
  import opened TaskPoolRuns

  predicate Internal(a: Act) { a.Work? || (a.Produce? && !a.d.Call?) }

  ghost predicate InternalRun(s: Pool, acts: seq<Act>, s': Pool) {
    Run(s, acts, s') && forall k :: 0 <= k < |acts| ==> Internal(acts[k])
  }

  // No task is queued, every live worker waits for one, and every call has returned.
  ghost predicate Done(s: Pool) {
    && s.ring.size == 0
    && (forall i :: 0 <= i < |s.workers| ==> s.workers[i] == Parked || s.workers[i] == RetiredDead)
    && (forall p :: 0 <= p < |s.producers| ==> s.producers[p] == Idle)
  }

  // ---- the steps come to an end ----

  function WorkerWeight(pc: WorkerPc): nat {
    match pc
    case Fetched => 7
    case Busy => 6
    case Returning => 5
    case Starting | Woken => 4
    case SawEmpty => 3
    case PastLoop => 2
    case WillWait | Retired | Quit => 1
    case Parked | RetiredDead | QuitDead => 0
  }

  function ProducerWeight(pc: ProducerPc): nat {
    match pc
    case Calling | Notified => 3
    case SawFull => 2
    case WillSleep | PastCheck => 1
    case WaitingRoom | Idle => 0
  }

  function Calls(pc: ProducerPc): nat { if pc == Idle then 0 else 2 }

  // The tasks still to be fetched, counting twice the calls that may still store one.
  function Outstanding(s: Pool): int { s.ring.size + Sum(s.producers, Calls) }

  // How far the threads are from their next wait.
  function Distance(s: Pool): nat { Sum(s.workers, WorkerWeight) + Sum(s.producers, ProducerWeight) }

  function MaxDistance(s: Pool): nat { 7 * |s.workers| + 3 * |s.producers| }

  function Measure(s: Pool): int { Outstanding(s) * (MaxDistance(s) + 1) + Distance(s) }

  lemma DistanceBound(s: Pool)
    ensures Distance(s) <= MaxDistance(s)
  {
    SumBound(s.workers, WorkerWeight, 7);
    SumBound(s.producers, ProducerWeight, 3);
  }

  lemma {:induction false} CallsWoken(ps: seq<ProducerPc>)
    ensures Sum(WakeProducers(ps), Calls) == Sum(ps, Calls)
  {
    if ps != [] {
      assert WakeProducers(ps)[1..] == WakeProducers(ps[1..]);
      CallsWoken(ps[1..]);
    }
  }

  lemma LoopWeightDrops(s: Pool, i: nat, w: WorkerAct)
    requires Enabled(s, Work(i, w)) && (w == Lock || w == Relock)
    ensures WorkerWeight(WorkerStep(s, i, w).workers[i]) < WorkerWeight(s.workers[i])
  {
  }

  lemma WorkerWeightDrops(s: Pool, i: nat, w: WorkerAct)
    requires Enabled(s, Work(i, w)) && (w == Fetch ==> s.shutdown)
    ensures var s' := WorkerStep(s, i, w);
      && WorkerWeight(s'.workers[i]) < WorkerWeight(s.workers[i]) && s'.workers == s.workers[i := s'.workers[i]]
      && s'.producers == s.producers && s'.ring == s.ring
  {
    if w == Lock || w == Relock {
      LoopWeightDrops(s, i, w);
    }
  }

  lemma WorkerDescends(s: Pool, i: nat, w: WorkerAct)
    requires Inv(s) && Enabled(s, Work(i, w)) && (w == Fetch ==> s.shutdown)
    ensures Outstanding(WorkerStep(s, i, w)) == Outstanding(s) && Distance(WorkerStep(s, i, w)) < Distance(s)
  {
    WorkerWeightDrops(s, i, w);
    SumUpdate(s.workers, i, WorkerStep(s, i, w).workers[i], WorkerWeight);
  }

  lemma FetchDescends(s: Pool, i: nat)
    requires Inv(s) && Enabled(s, Work(i, Fetch)) && !s.shutdown
    ensures Outstanding(WorkerStep(s, i, Fetch)) < Outstanding(s)
  {
    CallsWoken(s.producers);
  }

  lemma ProducerDescends(s: Pool, p: nat, d: ProducerAct)
    requires Enabled(s, Produce(p, d)) && (d.LockQueue? || d.ReadFlagFull? || d.Sleep?)
    ensures Outstanding(ProducerStep(s, p, d)) == Outstanding(s) && Distance(ProducerStep(s, p, d)) < Distance(s)
  {
    SumUpdate(s.producers, p, ProducerStep(s, p, d).producers[p], ProducerWeight);
    SumUpdate(s.producers, p, ProducerStep(s, p, d).producers[p], Calls);
  }

  lemma StoreDescends(s: Pool, p: nat, wake: nat)
    requires Inv(s) && Enabled(s, Produce(p, Store(wake)))
    ensures Outstanding(ProducerStep(s, p, Store(wake))) < Outstanding(s)
  {
    SumUpdate(s.producers, p, Idle, Calls);
  }

  lemma SameFrame(s: Pool, a: Act)
    requires Enabled(s, a) && Internal(a)
    ensures var s' := Apply(s, a);
      && s'.shutdown == s.shutdown && s'.manager == s.manager && |s'.ring.slots| == |s.ring.slots|
      && |s'.workers| == |s.workers| && |s'.producers| == |s.producers|
  {
    match a
    case Work(i, w) => WorkerFrame(s, i, w);
    case Produce(p, d) =>
  }

  lemma WorkerFrame(s: Pool, i: nat, w: WorkerAct)
    requires Enabled(s, Work(i, w))
    ensures var s' := WorkerStep(s, i, w);
      && s'.shutdown == s.shutdown && s'.manager == s.manager && |s'.ring.slots| == |s.ring.slots|
      && |s'.workers| == |s.workers| && |s'.producers| == |s.producers|
  {
  }

  lemma Lexicographic(k: nat, a: int, b: nat, a': int, b': nat)
    requires b' <= k && (a' < a || (a' == a && b' < b))
    ensures a' * (k + 1) + b' < a * (k + 1) + b
  {
    if a' < a {
      assert (a - 1 - a') * (k + 1) >= 0;
    }
  }

  lemma Descends(s: Pool, a: Act)
    requires Inv(s) && Enabled(s, a) && Internal(a)
    ensures var s' := Apply(s, a);
      Outstanding(s') < Outstanding(s) || (Outstanding(s') == Outstanding(s) && Distance(s') < Distance(s))
  {
    match a
    case Work(i, Fetch) => if s.shutdown { WorkerDescends(s, i, Fetch); } else { FetchDescends(s, i); }
    case Work(i, w) => WorkerDescends(s, i, w);
    case Produce(p, Store(wake)) => StoreDescends(s, p, wake);
    case Produce(p, d) => ProducerDescends(s, p, d);
  }

  lemma MeasureStep(s: Pool, a: Act)
    requires Inv(s) && Enabled(s, a) && Internal(a)
    ensures Measure(Apply(s, a)) < Measure(s)
  {
    Descends(s, a);
    SameFrame(s, a);
    MeasureDrops(s, Apply(s, a));
  }

  lemma MeasureDrops(s: Pool, s': Pool)
    requires |s'.workers| == |s.workers| && |s'.producers| == |s.producers|
    requires Outstanding(s') < Outstanding(s) || (Outstanding(s') == Outstanding(s) && Distance(s') < Distance(s))
    ensures Measure(s') < Measure(s)
  {
    DistanceBound(s');
    Lexicographic(MaxDistance(s), Outstanding(s), Distance(s), Outstanding(s'), Distance(s'));
  }

  lemma ProductNonNegative(a: int, b: int)
    requires 0 <= a && 0 <= b
    ensures 0 <= a * b
  {
  }

  lemma MeasureNonNegative(s: Pool)
    requires Inv(s)
    ensures 0 <= Measure(s)
  {
    ProductNonNegative(Outstanding(s), MaxDistance(s) + 1);
  }

  lemma {:induction false} InternalRunIsBounded(s: Pool, acts: seq<Act>, s': Pool)
    requires Inv(s) && InternalRun(s, acts, s')
    ensures |acts| + Measure(s') <= Measure(s)
    ensures s'.shutdown == s.shutdown && s'.manager == s.manager && |s'.ring.slots| == |s.ring.slots| && |s'.workers| == |s.workers|
    decreases |acts|
  {
    if acts != [] {
      assert Internal(acts[0]);
      InvStep(s, acts[0]);
      MeasureStep(s, acts[0]);
      SameFrame(s, acts[0]);
      assert forall k :: 0 <= k < |acts[1..]| ==> acts[1..][k] == acts[k + 1];
      InternalRunIsBounded(Apply(s, acts[0]), acts[1..], s');
    }
  }

  // ---- and then everything is done ----

  lemma WorkerCanMove(s: Pool, i: nat) returns (a: Act)
    requires Inv(s) && i < |s.workers| && s.workers[i] !in {Parked, RetiredDead, QuitDead}
    requires s.locked ==> s.workers[i] !in {Starting, Woken}
    ensures Internal(a) && Enabled(s, a)
  {
    match s.workers[i]
    case Starting => a := Work(i, Lock);
    case Woken => a := Work(i, Relock);
    case SawEmpty => a := Work(i, ReadFlag);
    case WillWait => a := Work(i, Park);
    case PastLoop => a := Work(i, Fetch);
    case Fetched => a := Work(i, BeginWork);
    case Busy => a := Work(i, Callback);
    case Returning => a := Work(i, EndWork);
    case Retired | Quit => a := Work(i, Terminate);
  }

  lemma ProducerCanMove(s: Pool, p: nat) returns (a: Act)
    requires Inv(s) && p < |s.producers| && s.producers[p] !in {Idle, WaitingRoom}
    requires s.locked ==> s.producers[p] !in {Calling, Notified}
    ensures Internal(a) && Enabled(s, a)
  {
    match s.producers[p]
    case Calling | Notified => a := Produce(p, LockQueue);
    case SawFull => a := Produce(p, ReadFlagFull);
    case WillSleep => a := Produce(p, Sleep);
    case PastCheck =>
      var wake := PickParked(s.workers, Parked);
      a := Produce(p, Store(wake));
  }

  // The holder of the lock can always go on.
  lemma HolderCanMove(s: Pool) returns (a: Act)
    requires Inv(s) && s.locked && !s.manager.Scanning?
    ensures Internal(a) && Enabled(s, a)
  {
    if i: nat :| i < |s.workers| && s.workers[i] in {SawEmpty, WillWait, PastLoop} {
      a := WorkerCanMove(s, i);
    } else {
      assert SawEmpty !in s.workers && WillWait !in s.workers && PastLoop !in s.workers;
      assert SawFull in s.producers || WillSleep in s.producers || PastCheck in s.producers;
      var p: nat :| p < |s.producers| && s.producers[p] in {SawFull, WillSleep, PastCheck};
      a := ProducerCanMove(s, p);
    }
  }

  predicate WorkerRests(pc: WorkerPc) { pc == Parked || pc == RetiredDead || pc == QuitDead }

  predicate ProducerRests(pc: ProducerPc) { pc == Idle || pc == WaitingRoom }

  // Every worker waits or has terminated, and every call has returned or waits.
  ghost predicate AtRest(s: Pool) {
    && (forall i :: 0 <= i < |s.workers| ==> WorkerRests(s.workers[i]))
    && (forall p :: 0 <= p < |s.producers| ==> ProducerRests(s.producers[p]))
  }

  lemma MoveUnlessAtRest(s: Pool) returns (a: Act)
    requires Inv(s) && !s.manager.Scanning? && !AtRest(s)
    ensures Internal(a) && Enabled(s, a)
  {
    if s.locked {
      a := HolderCanMove(s);
    } else if i: nat :| i < |s.workers| && !WorkerRests(s.workers[i]) {
      a := WorkerCanMove(s, i);
    } else {
      var p: nat :| p < |s.producers| && !ProducerRests(s.producers[p]);
      a := ProducerCanMove(s, p);
    }
  }

  lemma {:induction false} AllRetired(ws: seq<WorkerPc>)
    requires forall i :: 0 <= i < |ws| ==> ws[i] == RetiredDead
    ensures Count(ws, RetiredDead) == |ws| && Count(ws, Retired) == 0
  {
    if ws != [] {
      var n := |ws| - 1;
      assert ws == ws[..n] + [ws[n]];
      AllRetired(ws[..n]);
    }
  }

  // At rest with no wake-up lost, a pool with a live worker has nothing queued, and so
  // nobody waits for room.
  lemma RestIsDone(s: Pool)
    requires Inv(s) && Wakeups(s) && AtRest(s) && !s.shutdown && s.ring.Max() >= 1
    ensures Done(s) <==> s.live >= 1 || s.ring.size == 0
  {
    assert Woken !in s.workers && PastLoop !in s.workers && QuitDead !in s.workers;
    if Parked !in s.workers {
      AllRetired(s.workers);
    }
  }

  // Unless everything is done, some thread of the pool can move.
  lemma Progress(s: Pool) returns (a: Act)
    requires Inv(s) && Wakeups(s) && !s.shutdown && !s.manager.Scanning?
    requires s.ring.Max() >= 1 && s.live >= 1 && !Done(s)
    ensures Internal(a) && Enabled(s, a)
  {
    if AtRest(s) {
      RestIsDone(s);
    }
    a := MoveUnlessAtRest(s);
  }

  lemma AllFinished(s: Pool)
    requires Inv(s) && Done(s)
    ensures s.taken == s.accepted && multiset(s.finished) == multiset(s.accepted)
  {
    forall t ensures multiset(s.accepted)[t] == multiset(s.finished)[t] {
      assert Some(t) !in s.held;
    }
  }

  // Whatever the scheduling: from a state without shutdown, with its wake-ups and with the
  // manager not in mid-scan, the pool's own steps number at most Measure(s).  When none is
  // left and none of them lost a wake-up, a pool with min_thr_num >= 1 has executed every
  // stored task exactly once and every call has returned.  Without a minimum it may be that
  // nobody is left to take the tasks that are queued.
  lemma EveryTaskIsExecuted(s: Pool, acts: seq<Act>, s': Pool)
    requires Reachable(s) && Wakeups(s) && !s.shutdown && !s.manager.Scanning? && s.ring.Max() >= 1
    requires InternalRun(s, acts, s')
    ensures |acts| <= Measure(s)
    ensures (forall a :: Internal(a) ==> !Enabled(s', a)) && LossFree(s, acts) ==>
              && (s.minThr >= 1 ==> Done(s'))
              && (Done(s') <==> s'.live >= 1 || s'.ring.size == 0)
              && (Done(s') ==> s'.taken == s'.accepted && multiset(s'.finished) == multiset(s'.accepted))
  {
    ReachableInv(s);
    InternalRunIsBounded(s, acts, s');
    RunInv(s, acts, s');
    RunKeepsLimits(s, acts, s');
    MeasureNonNegative(s');
    if (forall a :: Internal(a) ==> !Enabled(s', a)) && LossFree(s, acts) {
      RunWakeups(s, acts, s');
      if !AtRest(s') {
        var a := MoveUnlessAtRest(s');
        assert false;
      }
      RestIsDone(s');
      if Done(s') {
        AllFinished(s');
      }
    }
  }
}
