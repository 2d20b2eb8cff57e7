// What every run of TaskPool guarantees.

module TaskPoolRuns {
  import opened Rings
  import opened Options
  import opened Threads
  import opened TaskPool
  import opened TaskPoolProofs

  // ---- safety ----

  lemma {:induction false} DistinctCounts(ws: seq<WorkerPc>, a: WorkerPc, b: WorkerPc, c: WorkerPc, d: WorkerPc)
    requires a != b && a != c && a != d && b != c && b != d && c != d
    ensures Count(ws, a) + Count(ws, b) + Count(ws, c) + Count(ws, d) <= |ws|
  {
    if ws != [] {
      var w := |ws| - 1;
      DistinctCounts(ws[..w], a, b, c, d);
      assert ws == ws[..w] + [ws[w]];
    }
  }

  // Thread accounting, whatever the manager's snapshots were.
  lemma ThreadAccounts(s: Pool)
    requires Reachable(s)
    ensures s.minThr <= s.live <= s.maxThr
    ensures 0 <= s.busy <= s.live
    ensures s.busy == Count(s.workers, Busy) + Count(s.workers, Returning)
    ensures s.live == |s.workers| - Count(s.workers, Retired) - Count(s.workers, RetiredDead)
    ensures 0 <= s.waitExit <= DEFAULT_THREAD_VARY
  {
    ReachableInv(s);
    DistinctCounts(s.workers, Busy, Returning, Retired, RetiredDead);
  }

  // With shutdown set at any moment: no worker dequeues from an empty ring, no producer
  // overwrites a full one, and a sleeping producer means the queue is full.
  lemma QueueIsSafe(s: Pool, a: Act)
    requires Reachable(s) && Enabled(s, a)
    ensures s.ring.Valid()
    ensures a.Work? && a.w == Fetch && !s.shutdown ==> s.ring.size > 0 && s.ring.Front() == [s.ring.Queue()[0]]
    ensures a.Produce? && a.d.Store? && !s.shutdown ==> s.ring.size < s.ring.Max() && 0 <= s.ring.rear < s.ring.Max()
    ensures WaitingRoom in s.producers ==> s.ring.size == s.ring.Max()
    ensures a.Work? && a.w == Callback ==> s.held[a.i].Some?
  {
    ReachableInv(s);
    match a
    case Work(i, Fetch) => FetchIsSafe(s, i);
    case Produce(p, Store(wake)) => StoreIsSafe(s, p, wake);
    case _ =>
  }

  lemma FetchIsSafe(s: Pool, i: nat)
    requires QueueOk(s) && Enabled(s, Work(i, Fetch))
    ensures !s.shutdown ==> s.ring.size > 0 && s.ring.Front() == [s.ring.Queue()[0]]
  {
    assert PastLoop in s.workers;
    if !s.shutdown {
      WrappedTake(s.ring);
    }
  }

  lemma StoreIsSafe(s: Pool, p: nat, wake: nat)
    requires QueueOk(s) && Enabled(s, Produce(p, Store(wake)))
    ensures !s.shutdown ==> s.ring.size < s.ring.Max() && 0 <= s.ring.rear < s.ring.Max()
  {
    assert PastCheck in s.producers;
    if !s.shutdown {
      WrappedPut(s.ring, s.want[p]);
    }
  }

  // First in, first out, exactly once: the stored tasks are the fetched ones in order and
  // then the queue, and as a bag they are the queued, the held and the finished ones.
  lemma ExactlyOnce(s: Pool, t: Task)
    requires Reachable(s)
    ensures s.ring.Valid() && s.accepted == s.taken + s.ring.Queue()
    ensures multiset(s.accepted)[t] == multiset(s.ring.Queue())[t] + multiset(s.held)[Some(t)] + multiset(s.finished)[t]
    ensures |s.held| == |s.workers|
    ensures forall i :: 0 <= i < |s.workers| ==> s.held[i].Some? == HasTask(s.workers[i])
  {
    ReachableInv(s);
  }

  // Live workers sit in slots of their own.
  lemma SlotsAreDistinct(s: Pool, v: nat, w: nat)
    requires Reachable(s) && Alive(s.workers, v) && Alive(s.workers, w)
    ensures |s.slotOf| == |s.workers| && |s.threads| == s.maxThr
    ensures s.slotOf[w] < s.maxThr && s.threads[s.slotOf[w]] == Some(w)
    ensures s.slotOf[v] == s.slotOf[w] ==> v == w
  {
    ReachableInv(s);
  }

  // No turn of a scan overwrites the slot of a live worker, and one turn starts a worker
  // exactly when it looks at a free slot with room left under both limits.
  lemma ScanIsSafe(s: Pool, i: nat)
    requires Reachable(s) && s.manager.Scanning? && i < |s.threads|
    ensures !SlotFree(s, i) ==> Scan(s).threads[i] == s.threads[i]
    ensures 0 <= s.manager.i && |s.threads| == s.maxThr
    ensures var m := s.manager;
            |Scan(s).workers| == |s.workers| + 1 <==>
              m.i < s.maxThr && m.add < DEFAULT_THREAD_VARY && s.live < s.maxThr
              && SlotFree(s, m.i)
  {
    ReachableInv(s);
    TurnStarts(s);
  }

  lemma TurnStarts(s: Pool)
    requires s.manager.Scanning? && 0 <= s.manager.i && |s.threads| == s.maxThr
    ensures var m := s.manager;
            |Scan(s).workers| == |s.workers| + 1 <==>
              m.i < s.maxThr && m.add < DEFAULT_THREAD_VARY && s.live < s.maxThr
              && SlotFree(s, m.i)
  {
  }

  // ---- free slots ----

  ghost function FreeSlots(s: Pool): set<nat> {
    set i: nat | i < |s.threads| && SlotFree(s, i)
  }

  ghost function LiveWorkers(s: Pool): set<nat> {
    set w: nat | w < |s.workers| && Alive(s.workers, w)
  }

  lemma UpTo(n: nat) returns (all: set<nat>)
    ensures (forall i: nat :: i in all <==> i < n) && |all| == n
  {
    if n == 0 {
      all := {};
    } else {
      all := UpTo(n - 1);
      all := all + {n - 1};
    }
  }

  lemma {:induction false} ImageSize(s: Pool, ws: set<nat>)
    requires SlotsOk(s) && ws <= LiveWorkers(s)
    ensures |set w | w in ws :: s.slotOf[w]| == |ws|
  {
    if ws != {} {
      var w :| w in ws;
      ImageSize(s, ws - {w});
      var rest := set v | v in ws - {w} :: s.slotOf[v];
      assert (set v | v in ws :: s.slotOf[v]) == rest + {s.slotOf[w]};
    }
  }

  lemma OccupiedSlots(s: Pool)
    requires SlotsOk(s)
    ensures |FreeSlots(s)| == |s.threads| - |LiveWorkers(s)|
  {
    var all := UpTo(|s.threads|);
    var taken := set w | w in LiveWorkers(s) :: s.slotOf[w];
    forall i | i in all - FreeSlots(s) ensures i in taken {
      assert s.threads[i].value in LiveWorkers(s);
    }
    assert taken == all - FreeSlots(s);
    ImageSize(s, LiveWorkers(s));
  }

  lemma LastIsLive(ws: seq<WorkerPc>)
    requires ws != []
    ensures var n := |ws| - 1; var liveInit := set w: nat | w < n && Alive(ws[..n], w);
      (set w: nat | w < |ws| && Alive(ws, w)) == if Alive(ws, n) then liveInit + {n} else liveInit
  {
  }

  lemma {:induction false} LiveCount(ws: seq<WorkerPc>)
    ensures |set w: nat | w < |ws| && Alive(ws, w)| == |ws| - Count(ws, RetiredDead) - Count(ws, QuitDead)
  {
    var live := set w: nat | w < |ws| && Alive(ws, w);
    if ws == [] {
      assert live == {};
    } else {
      var n := |ws| - 1;
      var init := ws[..n];
      LiveCount(init);
      var liveInit := set w: nat | w < |init| && Alive(init, w);
      assert ws == init + [ws[n]];
      LastIsLive(ws);
    }
  }

  lemma SlotsAreCounted(s: Pool)
    requires Inv(s)
    ensures |FreeSlots(s)| == s.maxThr - s.live - Count(s.workers, Retired) + Count(s.workers, QuitDead)
  {
    OccupiedSlots(s);
    LiveCount(s.workers);
    assert LiveWorkers(s) == set w: nat | w < |s.workers| && Alive(s.workers, w);
  }

  // By pigeonhole the slots a grow pass can use are those beyond live_thr_num, short of
  // the workers that gave themselves up but have not terminated, and with those added that
  // terminated at shutdown.
  lemma FreeSlotCount(s: Pool)
    requires Reachable(s)
    ensures |FreeSlots(s)| == s.maxThr - s.live - Count(s.workers, Retired) + Count(s.workers, QuitDead)
  {
    ReachableInv(s);
    SlotsAreCounted(s);
  }

  // ---- wake-ups of workers ----

  // Every queued task is matched by a woken worker or by the one about to fetch.
  ghost predicate Wakeups(s: Pool) {
    Parked in s.workers ==> s.ring.size <= Count(s.workers, Woken) + Count(s.workers, PastLoop)
  }

  // The one step that loses a wake-up: a worker returns from its wait and gives itself up
  // although another one waits and every other wake-up is already spoken for.
  predicate Loses(s: Pool, a: Act) {
    && a.Work? && RetiresNow(s, a.w)
    && Parked in s.workers && s.ring.size >= Count(s.workers, Woken)
  }

  lemma RelockLosesWakeup(s: Pool, i: nat)
    requires Inv(s) && Wakeups(s) && Enabled(s, Work(i, Relock))
    ensures Wakeups(Apply(s, Work(i, Relock))) <==> !Loses(s, Work(i, Relock))
  {
    assert PastLoop !in s.workers;
    RelockWakeups(s, i);
  }

  lemma RelockWakeups(s: Pool, i: nat)
    requires Wakeups(s) && At(s.workers, i, Woken) && PastLoop !in s.workers
    ensures Wakeups(AfterWait(s, i)) <==>
              !(RetiresNow(s, Relock) && Parked in s.workers && s.ring.size >= Count(s.workers, Woken))
  {
    RelockMoves(s.workers, i, AfterWait(s, i).workers[i]);
  }

  lemma RelockMoves(ws: seq<WorkerPc>, i: nat, pc: WorkerPc)
    requires i < |ws| && ws[i] == Woken && pc in {Retired, SawEmpty, PastLoop}
    ensures Parked in ws[i := pc] <==> Parked in ws
    ensures Count(ws[i := pc], Woken) == Count(ws, Woken) - 1
    ensures Count(ws[i := pc], PastLoop) == Count(ws, PastLoop) + if pc == PastLoop then 1 else 0
  {
    assert multiset(ws[i := pc])[Parked] == multiset(ws)[Parked];
  }

  lemma WakeupsWorker(s: Pool, i: nat, w: WorkerAct)
    requires Inv(s) && Wakeups(s) && Enabled(s, Work(i, w)) && w != Relock && w != Fetch
    ensures Wakeups(WorkerStep(s, i, w))
  {
  }

  lemma WakeupsFetch(s: Pool, i: nat)
    requires Inv(s) && Wakeups(s) && Enabled(s, Work(i, Fetch)) && !s.shutdown
    ensures Wakeups(WorkerStep(s, i, Fetch))
  {
  }

  lemma WakeupsProducer(s: Pool, p: nat, d: ProducerAct)
    requires Inv(s) && Wakeups(s) && Enabled(s, Produce(p, d))
    ensures Wakeups(ProducerStep(s, p, d))
  {
    WakeWorkersCounts(s.workers, PastLoop);
  }

  lemma WakeupsScan(s: Pool)
    requires Inv(s) && Wakeups(s) && s.manager.Scanning?
    ensures Wakeups(Scan(s))
  {
  }

  lemma WakeupsManager(s: Pool, m: ManagerAct)
    requires Inv(s) && Wakeups(s) && Enabled(s, Manage(m))
    ensures Wakeups(ManagerStep(s, m))
  {
    match m
    case ScanSlot => WakeupsScan(s);
    case SignalIdle(wake) =>
    case _ =>
      assert ManagerStep(s, m).workers == s.workers && ManagerStep(s, m).ring == s.ring;
  }

  lemma WakeupsEnvironment(s: Pool, e: EnvironmentAct)
    requires Inv(s) && Wakeups(s) && Enabled(s, Outside(e))
    ensures Wakeups(EnvironmentStep(s, e))
  {
    WakeWorkersCounts(s.workers, PastLoop);
  }

  predicate IsGivenUp(pc: WorkerPc) { pc == Retired || pc == RetiredDead }

  lemma WorkerMoves(s: Pool, i: nat, w: WorkerAct)
    requires Enabled(s, Work(i, w))
    ensures var s' := WorkerStep(s, i, w);
      && s'.shutdown == s.shutdown && s'.workers == s.workers[i := s'.workers[i]]
      && (IsGivenUp(s'.workers[i]) <==> IsGivenUp(s.workers[i]) || RetiresNow(s, w))
      && (IsGivenUp(s.workers[i]) ==> !RetiresNow(s, w))
  {
  }

  lemma GaveUpMoved(ws: seq<WorkerPc>, i: nat, pc: WorkerPc)
    requires i < |ws|
    ensures GaveUp(ws[i := pc]) + (if IsGivenUp(ws[i]) then 1 else 0) == GaveUp(ws) + (if IsGivenUp(pc) then 1 else 0)
  {
  }

  lemma GaveUpWorker(s: Pool, i: nat, w: WorkerAct)
    requires Enabled(s, Work(i, w))
    ensures GaveUp(WorkerStep(s, i, w).workers) == GaveUp(s.workers) + if RetiresNow(s, w) then 1 else 0
    ensures WorkerStep(s, i, w).shutdown == s.shutdown
  {
    WorkerMoves(s, i, w);
    GaveUpMoved(s.workers, i, WorkerStep(s, i, w).workers[i]);
  }

  predicate RetiresNow(s: Pool, w: WorkerAct) { w == Relock && s.waitExit > 0 && s.live > s.minThr }

  lemma GaveUpProducer(s: Pool, p: nat, d: ProducerAct)
    requires Enabled(s, Produce(p, d))
    ensures GaveUp(ProducerStep(s, p, d).workers) == GaveUp(s.workers)
    ensures ProducerStep(s, p, d).shutdown == s.shutdown
  {
    AccountWoken(s.workers, if d.Store? then d.wake else 0);
  }

  lemma GaveUpManager(s: Pool, m: ManagerAct)
    requires Enabled(s, Manage(m))
    ensures GaveUp(ManagerStep(s, m).workers) == GaveUp(s.workers)
    ensures ManagerStep(s, m).shutdown == s.shutdown
  {
    AccountWoken(s.workers, if m.SignalIdle? then m.wake else 0);
    AccountStarted(s.workers);
  }

  lemma GaveUpEnvironment(s: Pool, e: EnvironmentAct)
    requires Enabled(s, Outside(e))
    ensures GaveUp(EnvironmentStep(s, e).workers) == GaveUp(s.workers)
    ensures s.shutdown ==> EnvironmentStep(s, e).shutdown
  {
    if e.SpuriousWorker? {
      AccountMoved(s.workers, e.i, Woken);
    } else {
      AccountWoken(s.workers, 0);
    }
  }

  // Giving up and shutting down are for ever.
  lemma GaveUpGrows(s: Pool, a: Act)
    requires Enabled(s, a)
    ensures GaveUp(Apply(s, a).workers) == GaveUp(s.workers) + if a.Work? && RetiresNow(s, a.w) then 1 else 0
    ensures s.shutdown ==> Apply(s, a).shutdown
  {
    match a
    case Work(i, w) => GaveUpWorker(s, i, w);
    case Produce(p, d) => GaveUpProducer(s, p, d);
    case Manage(m) => GaveUpManager(s, m);
    case Outside(e) => GaveUpEnvironment(s, e);
  }

  // Until shutdown is set, a step keeps the wake-ups if and only if it is not the losing one.
  lemma WakeupsStep(s: Pool, a: Act)
    requires Inv(s) && Wakeups(s) && Enabled(s, a) && !Apply(s, a).shutdown
    ensures Wakeups(Apply(s, a)) <==> !Loses(s, a)
  {
    GaveUpGrows(s, a);
    match a
    case Work(i, Relock) => RelockLosesWakeup(s, i);
    case Work(i, Fetch) => WakeupsFetch(s, i);
    case Work(i, w) => WakeupsWorker(s, i, w);
    case Produce(p, d) => WakeupsProducer(s, p, d);
    case Manage(m) => WakeupsManager(s, m);
    case Outside(e) => WakeupsEnvironment(s, e);
  }

  // No step of the run loses a wake-up.
  ghost predicate LossFree(s: Pool, acts: seq<Act>)
    decreases |acts|
  {
    acts == [] || (Enabled(s, acts[0]) && !Loses(s, acts[0]) && LossFree(Apply(s, acts[0]), acts[1..]))
  }

  // The wake-ups suffice at every state of the run.
  ghost predicate AlwaysWakeups(s: Pool, acts: seq<Act>)
    decreases |acts|
  {
    Wakeups(s) && (acts == [] || (Enabled(s, acts[0]) && AlwaysWakeups(Apply(s, acts[0]), acts[1..])))
  }

  lemma {:induction false} RunKeepsShutdown(s: Pool, acts: seq<Act>, s': Pool)
    requires Run(s, acts, s') && s.shutdown
    ensures s'.shutdown
    decreases |acts|
  {
    if acts != [] {
      GaveUpGrows(s, acts[0]);
      RunKeepsShutdown(Apply(s, acts[0]), acts[1..], s');
    }
  }

  lemma {:induction false} RunWakeups(s: Pool, acts: seq<Act>, s': Pool)
    requires Inv(s) && Run(s, acts, s') && Wakeups(s) && !s'.shutdown
    ensures AlwaysWakeups(s, acts) <==> LossFree(s, acts)
    ensures LossFree(s, acts) ==> Wakeups(s')
    decreases |acts|
  {
    if acts != [] {
      var s1 := Apply(s, acts[0]);
      InvStep(s, acts[0]);
      if s1.shutdown {
        RunKeepsShutdown(s1, acts[1..], s');
      }
      WakeupsStep(s, acts[0]);
      if Wakeups(s1) {
        RunWakeups(s1, acts[1..], s');
      }
    }
  }

  // In every run, retirements included, until shutdown is set: every queued task is matched
  // by a wake-up all the time if and only if no worker makes the losing step.
  lemma NoLostWakeup(s0: Pool, acts: seq<Act>, s: Pool)
    requires Init(s0) && Run(s0, acts, s) && !s.shutdown
    ensures AlwaysWakeups(s0, acts) <==> LossFree(s0, acts)
    ensures LossFree(s0, acts) ==> Wakeups(s)
  {
    InitInv(s0);
    assert Parked !in s0.workers;
    RunWakeups(s0, acts, s);
  }

  // ---- pools that never lose a wake-up ----

  lemma StepKeepsLimits(s: Pool, a: Act)
    requires Enabled(s, a)
    ensures Apply(s, a).minThr == s.minThr && Apply(s, a).maxThr == s.maxThr && Apply(s, a).ring.Max() == s.ring.Max()
  {
    match a
    case Work(i, w) =>
    case Produce(p, d) =>
    case Manage(m) =>
    case Outside(e) =>
  }

  lemma {:induction false} RunKeepsLimits(s: Pool, acts: seq<Act>, s': Pool)
    requires Run(s, acts, s')
    ensures s'.minThr == s.minThr && s'.maxThr == s.maxThr && s'.ring.Max() == s.ring.Max()
    decreases |acts|
  {
    if acts != [] {
      StepKeepsLimits(s, acts[0]);
      RunKeepsLimits(Apply(s, acts[0]), acts[1..], s');
    }
  }

  // With fewer places than a grow pass asks for, the manager never grows the pool, and so it
  // never has a worker to spare.
  ghost predicate NeverGrown(s: Pool) {
    && s.ring.Max() < MIN_WAIT_TASK_NUM && s.live == s.minThr && !s.manager.Scanning?
    && (s.manager.SawQueue? || s.manager.SawBusy? ==> s.manager.queueSize < MIN_WAIT_TASK_NUM)
  }

  lemma WorkerNeverGrows(s: Pool, i: nat, w: WorkerAct)
    requires NeverGrown(s) && Enabled(s, Work(i, w))
    ensures NeverGrown(WorkerStep(s, i, w))
  {
  }

  lemma ManagerNeverGrows(s: Pool, m: ManagerAct)
    requires NeverGrown(s) && QueueOk(s) && Enabled(s, Manage(m))
    ensures NeverGrown(ManagerStep(s, m))
  {
  }

  lemma StepNeverGrows(s: Pool, a: Act)
    requires NeverGrown(s) && QueueOk(s) && Enabled(s, a)
    ensures NeverGrown(Apply(s, a))
  {
    match a
    case Work(i, w) => WorkerNeverGrows(s, i, w);
    case Produce(p, d) =>
    case Manage(m) => ManagerNeverGrows(s, m);
    case Outside(e) =>
  }

  lemma {:induction false} NothingLost(s: Pool, acts: seq<Act>, s': Pool)
    requires Inv(s) && Run(s, acts, s') && (s.minThr == s.maxThr || NeverGrown(s))
    ensures LossFree(s, acts)
    decreases |acts|
  {
    if acts != [] {
      var s1 := Apply(s, acts[0]);
      InvStep(s, acts[0]);
      StepKeepsLimits(s, acts[0]);
      if NeverGrown(s) {
        StepNeverGrows(s, acts[0]);
      }
      NothingLost(s1, acts[1..], s');
    }
  }

  // A pool of fixed size, or with fewer than ten places in its queue, never loses a wake-up:
  // in every run without shutdown every queued task is matched by one.
  lemma SafeParameters(s0: Pool, acts: seq<Act>, s: Pool)
    requires Init(s0) && Run(s0, acts, s) && !s.shutdown
    requires s0.minThr == s0.maxThr || s0.ring.Max() < MIN_WAIT_TASK_NUM
    ensures LossFree(s0, acts) && AlwaysWakeups(s0, acts) && Wakeups(s)
  {
    InitInv(s0);
    NothingLost(s0, acts, s);
    NoLostWakeup(s0, acts, s);
  }
}
