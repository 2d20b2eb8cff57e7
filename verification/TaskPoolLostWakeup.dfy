// What retiring workers can do to a pool of at most two: a run with one losing step, after
// which a task stays queued for ever while a live worker waits; and a state in which there
// is room for one more thread but no slot to start it in.  And what a pool without a minimum
// can come to: tasks queued and no worker.

module TaskPoolLostWakeup {
  import opened Rings
  import opened Options
  import opened Threads
  import opened TaskPool
  import opened TaskPoolProofs
  import opened TaskPoolRuns
  import opened TaskPoolLiveness

  lemma {:induction false} RunAppend(s: Pool, acts: seq<Act>, s1: Pool, a: Act)
    requires Run(s, acts, s1) && Enabled(s1, a)
    ensures Run(s, acts + [a], Apply(s1, a))
    decreases |acts|
  {
    if acts == [] {
      assert acts + [a] == [a];
      assert Run(Apply(s, a), [], Apply(s1, a));
    } else {
      RunAppend(Apply(s, acts[0]), acts[1..], s1, a);
      assert (acts + [a])[1..] == acts[1..] + [a];
    }
  }

  // One more step of a run.
  lemma Go(s: Pool, a: Act) returns (s': Pool)
    requires Reachable(s) && Enabled(s, a)
    ensures Reachable(s') && s' == Apply(s, a)
  {
    var s0, acts :| Init(s0) && Run(s0, acts, s);
    RunAppend(s0, acts, s, a);
    s' := Apply(s, a);
  }

  // A state with the lock free, one idle producer and room in the queue.
  ghost predicate Calm(s: Pool) {
    !s.locked && !s.shutdown && s.producers == [Idle] && |s.want| == 1 && |s.held| == |s.workers|
  }

  lemma AddOne(s: Pool, wake: nat) returns (s': Pool)
    requires Reachable(s) && Calm(s) && s.ring.size < s.ring.Max() && Picks(s.workers, Parked, wake)
    ensures Reachable(s') && Calm(s')
    ensures s' == s.(ring := s.ring.Put(0), want := [0], accepted := s.accepted + [0], workers := Wake(s.workers, wake))
  {
    s' := Go(s, Produce(0, Call(0)));
    s' := Go(s', Produce(0, LockQueue));
    s' := Go(s', Produce(0, Store(wake)));
  }

  lemma {:induction false} AddMany(s: Pool, n: nat) returns (s': Pool)
    requires Reachable(s) && Calm(s) && s.ring.Valid() && s.ring.size + n <= s.ring.Max() && Parked !in s.workers
    ensures Reachable(s') && Calm(s') && s'.ring.Valid()
    ensures s' == s.(ring := s'.ring, want := s'.want, accepted := s'.accepted)
    ensures s'.ring.size == s.ring.size + n && s'.ring.Max() == s.ring.Max()
    decreases n
  {
    if n == 0 {
      s' := s;
    } else {
      WrappedPut(s.ring, 0);
      s' := AddOne(s, 0);
      s' := AddMany(s', n - 1);
    }
  }

  // Worker 0 fetches a task...
  lemma FetchOne(s: Pool) returns (s': Pool)
    requires Reachable(s) && Calm(s) && s.ring.size > 0 && s.workers == [Starting, Starting]
    requires 0 <= s.ring.front < s.ring.Max()
    ensures Reachable(s')
    ensures s' == s.(ring := s.ring.Take(), workers := [Fetched, Starting],
                     held := s.held[0 := Some(s.ring.Front()[0])], taken := s.taken + s.ring.Front())
  {
    s' := Go(s, Work(0, Lock));
    s' := Go(s', Work(0, Fetch));
    assert s'.producers == [Idle];
    assert s'.workers == [Fetched, Starting];
  }

  // ... and runs it.
  lemma RunOne(s: Pool) returns (s': Pool)
    requires Reachable(s) && |s.held| == 2 && s.held[0].Some? && s.workers == [Fetched, Starting]
    ensures Reachable(s')
    ensures s' == s.(workers := [Starting, Starting], held := s.held[0 := None], finished := s.finished + [s.held[0].value])
  {
    s' := Go(s, Work(0, BeginWork));
    s' := Go(s', Work(0, Callback));
    s' := Go(s', Work(0, EndWork));
    assert s'.workers == [Starting, Starting];
  }

  lemma {:induction false} WorkMany(s: Pool, n: nat) returns (s': Pool)
    requires Reachable(s) && Calm(s) && s.ring.Valid() && s.ring.size == n
    requires s.workers == [Starting, Starting] && s.held == [None, None]
    ensures Reachable(s') && Calm(s') && s'.ring.Valid() && s'.ring.size == 0 && s'.ring.Max() == s.ring.Max()
    ensures s' == s.(ring := s'.ring, taken := s'.taken, finished := s'.finished)
    decreases n
  {
    s' := s;
    if n > 0 {
      WrappedTake(s.ring);
      s' := FetchOne(s');
      s' := RunOne(s');
      assert s'.held == [None, None];
      s' := WorkMany(s', n - 1);
    }
  }

  lemma Start() returns (s: Pool)
    ensures Reachable(s) && Calm(s) && s.manager == Top && s.minThr == 1 == s.live && s.maxThr == 2
    ensures s.busy == 0 == s.waitExit && s.threads == [Some(0), None] && s.workers == [Starting] && s.held == [None]
    ensures s.ring.Valid() && s.ring.size == 0 && s.ring.Max() == 10
  {
    var ring := Wrapped(seq(10, _ => 0), 0, 0, 0);
    s := Pool(ring, 1, 2, 1, 0, 0, false, false, [Some(0), None], [Starting], [None], [Idle], [0], Top,
              [0], [], [], []);
    assert Init(s) && Run(s, [], s);
  }

  // Ten queued tasks make the manager start a second worker.
  lemma Grow(s: Pool) returns (s': Pool)
    requires Reachable(s) && Calm(s) && s.manager == Top && s.minThr == 1 == s.live && s.maxThr == 2
    requires s.busy == 0 == s.waitExit && s.threads == [Some(0), None] && s.workers == [Starting] && s.held == [None]
    requires s.ring.size == 10
    ensures Reachable(s') && Calm(s') && s'.manager == Top && s'.minThr == 1 && s'.live == 2 && s'.maxThr == 2
    ensures s'.busy == 0 && s'.waitExit == 0 && s'.workers == [Starting, Starting] && s'.held == [None, None]
    ensures s'.ring == s.ring
  {
    s' := Observe(s);
    s' := Go(s', Manage(GrowDecision));
    s' := ScanBoth(s');
    s' := Go(s', Manage(ShrinkDecision));
  }

  lemma Observe(s: Pool) returns (s': Pool)
    requires Reachable(s) && Calm(s) && s.manager == Top
    ensures Reachable(s') && s' == s.(manager := SawBusy(s.ring.size, s.live, s.busy))
  {
    s' := Go(s, Manage(ManagerLoop));
    s' := Go(s', Manage(SnapshotQueue));
    s' := Go(s', Manage(SnapshotBusy));
  }

  // The scan passes over worker 0 and starts worker 1 in the empty slot.
  lemma ScanBoth(s: Pool) returns (s': Pool)
    requires Reachable(s) && s.manager == Scanning(0, 0, 1, 0) && s.live == 1 && s.maxThr == 2
    requires s.threads == [Some(0), None] && s.workers == [Starting]
    ensures Reachable(s')
    ensures s' == s.(manager := GrowDone(1, 0), locked := false, live := 2, threads := [Some(0), Some(1)],
                     workers := [Starting, Starting], held := s.held + [None], slotOf := s.slotOf + [1])
  {
    s' := PassOver(s);
    s' := StartSecond(s');
    s' := Go(s', Manage(ScanSlot));
  }

  lemma PassOver(s: Pool) returns (s': Pool)
    requires Reachable(s) && s.manager == Scanning(0, 0, 1, 0) && s.live == 1 && s.maxThr == 2
    requires s.threads == [Some(0), None] && s.workers == [Starting]
    ensures Reachable(s') && s' == s.(manager := Scanning(1, 0, 1, 0))
  {
    assert !SlotFree(s, 0) && ScanGoesOn(s, 0, 0);
    s' := Go(s, Manage(ScanSlot));
  }

  lemma StartSecond(s: Pool) returns (s': Pool)
    requires Reachable(s) && s.manager == Scanning(1, 0, 1, 0) && s.live == 1 && s.maxThr == 2
    requires s.threads == [Some(0), None] && s.workers == [Starting]
    ensures Reachable(s')
    ensures s' == s.(manager := Scanning(2, 1, 1, 0), live := 2, threads := [Some(0), Some(1)],
                     workers := [Starting, Starting], held := s.held + [None], slotOf := s.slotOf + [1])
  {
    assert SlotFree(s, 1) && ScanGoesOn(s, 1, 0);
    s' := Go(s, Manage(ScanSlot));
    assert s'.threads == [Some(0), Some(1)] && s'.workers == [Starting, Starting];
  }

  lemma {:induction false} SignalNobody(s: Pool) returns (s': Pool)
    requires Reachable(s) && Calm(s) && Parked !in s.workers
    requires s.manager.Signalling? && s.manager.sent <= DEFAULT_THREAD_VARY
    ensures Reachable(s') && s' == s.(manager := Top)
    decreases DEFAULT_THREAD_VARY - s.manager.sent
  {
    var sent := s.manager.sent;
    s' := Go(s, Manage(SignalIdle(0)));
    if sent < DEFAULT_THREAD_VARY {
      s' := SignalNobody(s');
    }
  }

  // With both workers idle but not yet parked, the manager asks for ten retirements, and
  // its ten signals reach nobody.
  lemma Shrink(s: Pool) returns (s': Pool)
    requires Reachable(s) && Calm(s) && s.manager == Top && s.minThr == 1 && s.live == 2 && s.maxThr == 2
    requires s.busy == 0 && s.workers == [Starting, Starting] && s.ring.size == 0
    ensures Reachable(s') && s' == s.(manager := Top, waitExit := 10)
  {
    s' := Observe(s);
    s' := Go(s', Manage(GrowDecision));
    s' := Go(s', Manage(ShrinkDecision));
    s' := SignalNobody(s');
  }

  lemma ParkOne(s: Pool, i: nat) returns (s': Pool)
    requires Reachable(s) && Calm(s) && i < |s.workers| && s.workers[i] == Starting && s.ring.size == 0
    ensures Reachable(s') && s' == s.(workers := s.workers[i := Parked])
  {
    s' := Go(s, Work(i, Lock));
    s' := Go(s', Work(i, ReadFlag));
    s' := Go(s', Work(i, Park));
  }

  // Two idle workers and ten retirements wanted.
  lemma TwoIdle() returns (s: Pool)
    ensures Reachable(s) && Calm(s) && s.manager == Top && s.minThr == 1 && s.live == 2 == s.maxThr && s.waitExit == 10
    ensures s.workers == [Starting, Starting] && s.held == [None, None] && s.ring.Valid() && s.ring.size == 0 && s.ring.Max() == 10
  {
    s := Start();
    s := AddMany(s, 10);
    s := Grow(s);
    s := WorkMany(s, 10);
    s := Shrink(s);
  }

  // Both workers parked.
  lemma BothParked() returns (s: Pool)
    ensures Reachable(s) && Calm(s) && s.manager == Top && s.minThr == 1 && s.live == 2 == s.maxThr && s.waitExit == 10
    ensures s.workers == [Parked, Parked] && s.ring.Valid() && s.ring.size == 0 && s.ring.Max() == 10
  {
    s := TwoIdle();
    s := ParkOne(s, 0);
    s := ParkOne(s, 1);
    assert s.workers == [Parked, Parked];
  }

  // ---- the lost wake-up ----

  // One task queued, one worker left and parked, and a manager that sees no reason to act.
  ghost predicate Stuck(s: Pool) {
    && !s.locked && !s.shutdown && s.producers == [Idle] && s.workers == [RetiredDead, Parked]
    && s.ring.size == 1 && s.minThr == 1 == s.live && s.busy == 0
    && s.manager in {Top, Asleep, SawQueue(1, 1), SawBusy(1, 1, 0), GrowDone(1, 0)}
  }

  // The pool's own steps, the manager's included.
  predicate Own(a: Act) { Internal(a) || a.Manage? }

  lemma StuckStep(s: Pool, a: Act)
    requires Stuck(s) && Enabled(s, a) && Own(a)
    ensures Stuck(Apply(s, a)) && Apply(s, a).ring == s.ring
  {
  }

  lemma {:induction false} StuckRun(s: Pool, acts: seq<Act>, s': Pool)
    requires Stuck(s) && Run(s, acts, s') && forall k :: 0 <= k < |acts| ==> Own(acts[k])
    ensures Stuck(s') && s'.ring == s.ring
    decreases |acts|
  {
    if acts != [] {
      StuckStep(s, acts[0]);
      assert forall k :: 0 <= k < |acts[1..]| ==> acts[1..][k] == acts[k + 1];
      StuckRun(Apply(s, acts[0]), acts[1..], s');
    }
  }

  // A reachable state without shutdown in which a task is queued, a live worker is parked and
  // every call has returned, and in which no run of workers, calls and manager ever changes
  // the queue or a worker.
  lemma WakeupCanBeLost() returns (s: Pool)
    ensures Reachable(s) && !s.shutdown && s.producers == [Idle]
    ensures s.workers == [RetiredDead, Parked] && s.ring.size == 1
    ensures forall acts, s' :: Run(s, acts, s') && (forall k :: 0 <= k < |acts| ==> Own(acts[k])) ==>
              s'.ring == s.ring && s'.workers == s.workers && s'.producers == s.producers
  {
    s := BothParked();
    s := AddOne(s, 0);
    assert s.workers == [Woken, Parked];
    s := RetireFirst(s);
    ReachableInv(s);
    forall acts, s' | Run(s, acts, s') && forall k :: 0 <= k < |acts| ==> Own(acts[k])
      ensures s'.ring == s.ring && s'.workers == s.workers && s'.producers == s.producers
    {
      StuckRun(s, acts, s');
    }
  }

  // It is the losing step that does it.
  lemma RetireFirst(s: Pool) returns (s': Pool)
    requires Reachable(s) && Calm(s) && s.workers == [Woken, Parked] && s.waitExit == 10 && s.minThr == 1 && s.live == 2
    requires s.ring.size == 1
    ensures Loses(s, Work(0, Relock))
    ensures Reachable(s') && s' == s.(waitExit := 9, live := 1, workers := [RetiredDead, Parked])
  {
    s' := GiveUp(s);
    s' := Go(s', Work(0, Terminate));
    assert s'.workers == [RetiredDead, Parked];
  }

  lemma GiveUp(s: Pool) returns (s': Pool)
    requires Reachable(s) && Calm(s) && s.workers == [Woken, Parked] && s.waitExit == 10 && s.minThr == 1 && s.live == 2
    ensures Reachable(s') && s' == s.(waitExit := 9, live := 1, workers := [Retired, Parked])
  {
    s' := Go(s, Work(0, Relock));
    assert s'.workers == [Retired, Parked];
  }

  // ---- no slot for a thread that may be started ----

  // One task queued, one worker parked, and one on its way out.
  lemma OneLeaving() returns (s: Pool)
    ensures Reachable(s) && Calm(s) && s.manager == Top && s.live == 1 && s.maxThr == 2
    ensures s.workers == [Retired, Parked] && s.ring.size == 1 && s.ring.Max() == 10
  {
    s := BothParked();
    s := AddOne(s, 0);
    assert s.workers == [Woken, Parked];
    s := GiveUp(s);
  }

  // Ten tasks queued, one worker below max_thr_num, and the manager about to scan.
  lemma FullAndShort() returns (s: Pool)
    ensures Reachable(s) && s.manager.Scanning? && s.manager.i == 0 == s.manager.add && s.workers == [Retired, Woken]
    ensures s.live == 1 && s.maxThr == 2
  {
    s := OneLeaving();
    s := AddOne(s, 1);
    assert s.workers == [Retired, Woken] && Parked !in s.workers && s.ring.size == 2;
    RingIsValid(s);
    s := AddMany(s, 8);
    s := StartScan(s);
  }

  lemma RingIsValid(s: Pool)
    requires Reachable(s)
    ensures s.ring.Valid()
  {
    ReachableInv(s);
  }

  lemma StartScan(s: Pool) returns (s': Pool)
    requires Reachable(s) && Calm(s) && s.manager == Top && s.ring.size == 10 && s.live < s.maxThr
    ensures Reachable(s') && s' == s.(locked := true, manager := Scanning(0, 0, s.live, s.busy))
  {
    s' := Observe(s);
    s' := Go(s', Manage(GrowDecision));
  }

  // A scan of two slots that are both taken.
  lemma ScanOfTakenSlots(s: Pool) returns (acts: seq<Act>, s': Pool)
    requires s.manager.Scanning? && s.manager.i == 0 == s.manager.add && s.live < s.maxThr == 2 == |s.threads|
    requires !SlotFree(s, 0) && !SlotFree(s, 1)
    ensures Run(s, acts, s') && s'.manager.GrowDone? && |s'.workers| == |s.workers|
    ensures forall k :: 0 <= k < |acts| ==> acts[k] == Manage(ScanSlot)
  {
    var scan, m := Manage(ScanSlot), s.manager;
    var s1 := s.(manager := m.(i := 1));
    var s2 := s.(manager := m.(i := 2));
    assert Scan(s) == s1 && Scan(s1) == s2;
    s' := Scan(s2);
    acts := [scan, scan, scan];
    assert Run(s', [], s') && Run(s2, [scan], s') && Run(s1, [scan, scan], s') && acts[1..] == [scan, scan];
  }

  lemma NoSlotFree(s: Pool)
    requires Reachable(s) && s.workers == [Retired, Woken] && s.live == 1 && s.maxThr == 2
    ensures |s.threads| == 2 && !SlotFree(s, 0) && !SlotFree(s, 1)
  {
    ReachableInv(s);
    FreeSlotCount(s);
    assert Retired in s.workers;
    assert FreeSlots(s) == {};
    assert 0 !in FreeSlots(s) && 1 !in FreeSlots(s);
  }

  // A whole grow pass that starts nobody although live_thr_num is below the maximum: both
  // slots are taken, one of them by a worker that has given itself up but not terminated.
  lemma GrowPassCanStartNobody() returns (s: Pool, acts: seq<Act>, s': Pool)
    ensures Reachable(s) && s.manager.Scanning? && s.manager.i == 0 == s.manager.add && s.maxThr - s.live == 1
    ensures Run(s, acts, s') && s'.manager.GrowDone? && |s'.workers| == |s.workers|
    ensures forall k :: 0 <= k < |acts| ==> acts[k] == Manage(ScanSlot)
  {
    s := FullAndShort();
    NoSlotFree(s);
    acts, s' := ScanOfTakenSlots(s);
  }

  // ---- no worker at all ----

  // A few tasks queued, nobody to take them, and a manager that sees too few of them to act.
  ghost predicate Deserted(s: Pool) {
    && !s.locked && !s.shutdown && s.workers == [] && s.producers == [Idle]
    && 0 < s.ring.size < MIN_WAIT_TASK_NUM && s.minThr == 0 == s.live && s.busy == 0
    && s.manager in {Top, Asleep, SawQueue(s.ring.size, 0), SawBusy(s.ring.size, 0, 0), GrowDone(0, 0)}
  }

  lemma DesertedStep(s: Pool, a: Act)
    requires Deserted(s) && Enabled(s, a) && Own(a)
    ensures Deserted(Apply(s, a)) && Apply(s, a).ring == s.ring
  {
  }

  lemma {:induction false} DesertedRun(s: Pool, acts: seq<Act>, s': Pool)
    requires Deserted(s) && Run(s, acts, s') && forall k :: 0 <= k < |acts| ==> Own(acts[k])
    ensures Deserted(s') && s'.ring == s.ring
    decreases |acts|
  {
    if acts != [] {
      DesertedStep(s, acts[0]);
      assert forall k :: 0 <= k < |acts[1..]| ==> acts[1..][k] == acts[k + 1];
      DesertedRun(Apply(s, acts[0]), acts[1..], s');
    }
  }

  lemma Empty(maxThr: nat, places: nat) returns (s: Pool)
    ensures Init(s) && Reachable(s) && Calm(s) && s.manager == Top && s.workers == []
    ensures s.minThr == 0 == s.live == s.busy && s.maxThr == maxThr && s.ring.Max() == places && s.ring.size == 0
  {
    var ring := Wrapped(seq(places, _ => 0), 0, 0, 0);
    s := Pool(ring, 0, maxThr, 0, 0, 0, false, false, seq(maxThr, _ => None), [], [], [Idle], [0], Top,
              [], [], [], []);
    assert Init(s) && Run(s, [], s);
  }

  // With min_thr_num == 0, whatever the other parameters: a task is stored and its call
  // returns, no wake-up is lost, and no run of workers, calls and manager ever changes the
  // queue or starts a worker.
  lemma NobodyIsLeft(maxThr: nat, places: nat) returns (s0: Pool, s: Pool, acts: seq<Act>)
    requires places >= 1
    ensures Init(s0) && s0.minThr == 0 && s0.maxThr == maxThr && s0.ring.Max() == places
    ensures Run(s0, acts, s) && LossFree(s0, acts) && !s.shutdown && s.ring.size == 1 && s.workers == []
    ensures forall more, s' :: Run(s, more, s') && (forall k :: 0 <= k < |more| ==> Own(more[k])) ==>
              s'.ring == s.ring && s'.workers == s.workers && s'.producers == s.producers
  {
    s0 := Empty(maxThr, places);
    acts, s := StoreOne(s0);
    forall more, s' | Run(s, more, s') && forall k :: 0 <= k < |more| ==> Own(more[k])
      ensures s'.ring == s.ring && s'.workers == s.workers && s'.producers == s.producers
    {
      DesertedRun(s, more, s');
    }
  }

  lemma StoreOne(s0: Pool) returns (acts: seq<Act>, s: Pool)
    requires Calm(s0) && s0.workers == [] && s0.ring.size == 0 < s0.ring.Max()
    ensures Run(s0, acts, s) && LossFree(s0, acts)
    ensures s == s0.(ring := s0.ring.Put(0), want := [0], accepted := s0.accepted + [0])
  {
    var s1 := Apply(s0, Produce(0, Call(0)));
    var s2 := Apply(s1, Produce(0, LockQueue));
    s := Apply(s2, Produce(0, Store(0)));
    assert s.producers == [Idle];
    var a, b, c := Produce(0, Call(0)), Produce(0, LockQueue), Produce(0, Store(0));
    acts := [a, b, c];
    assert acts[1..] == [b, c] && [b, c][1..] == [c] && [c][1..] == [];
    assert Run(s, [], s) && Run(s2, [c], s) && Run(s1, [b, c], s);
    assert LossFree(s, []) && LossFree(s2, [c]) && LossFree(s1, [b, c]);
  }
}
