// Every step of TaskPool keeps its invariant.  For each part of the invariant there is a
// lemma saying which changes of the state it survives; the four kinds of step are then
// instances.

module TaskPoolProofs {
  import opened Rings
  import opened Options
  import opened Threads
  import opened TaskPool

  lemma InitInv(s: Pool)
    requires Init(s)
    ensures Inv(s)
  {
    assert forall pc :: pc in s.workers ==> pc == Starting;
    assert forall pc :: pc in s.producers ==> pc == Idle;
    assert SawEmpty !in s.workers && WillWait !in s.workers && PastLoop !in s.workers;
    assert SawFull !in s.producers && WillSleep !in s.producers && PastCheck !in s.producers;
    assert Retired !in s.workers && RetiredDead !in s.workers && Busy !in s.workers && Returning !in s.workers;
    forall t ensures multiset(s.held)[Some(t)] == 0 {
      assert Some(t) !in s.held;
    }
  }

  // ---- broadcasts ----

  lemma WakeWorkersCounts(ws: seq<WorkerPc>, pc: WorkerPc)
    requires pc != Parked && pc != Woken
    ensures Count(WakeWorkers(ws), pc) == Count(ws, pc) && Parked !in WakeWorkers(ws)
  {
    if ws != [] {
      var w := |ws| - 1;
      WakeWorkersCounts(ws[..w], pc);
      assert ws == ws[..w] + [ws[w]];
      assert WakeWorkers(ws) == WakeWorkers(ws[..w]) + [if ws[w] == Parked then Woken else ws[w]];
    }
  }

  lemma WakeProducersCounts(ps: seq<ProducerPc>, pc: ProducerPc)
    requires pc != WaitingRoom && pc != Notified
    ensures Count(WakeProducers(ps), pc) == Count(ps, pc) && WaitingRoom !in WakeProducers(ps)
  {
    if ps != [] {
      var p := |ps| - 1;
      WakeProducersCounts(ps[..p], pc);
      assert ps == ps[..p] + [ps[p]];
      assert WakeProducers(ps) == WakeProducers(ps[..p]) + [if ps[p] == WaitingRoom then Notified else ps[p]];
    }
  }

  // ---- the lock ----

  function WorkerInside(pc: WorkerPc): nat { if pc == SawEmpty || pc == WillWait || pc == PastLoop then 1 else 0 }

  function ProducerInside(pc: ProducerPc): nat { if pc == SawFull || pc == WillSleep || pc == PastCheck then 1 else 0 }

  lemma WorkerMoved(ws: seq<WorkerPc>, i: nat, pc: WorkerPc)
    requires i < |ws|
    ensures WorkersInside(ws[i := pc]) == WorkersInside(ws) - WorkerInside(ws[i]) + WorkerInside(pc)
  {
  }

  lemma ProducerMoved(ps: seq<ProducerPc>, p: nat, pc: ProducerPc)
    requires p < |ps|
    ensures ProducersInside(ps[p := pc]) == ProducersInside(ps) - ProducerInside(ps[p]) + ProducerInside(pc)
  {
  }

  lemma WorkersWoken(ws: seq<WorkerPc>, wake: nat)
    ensures WorkersInside(Wake(ws, wake)) == WorkersInside(WakeWorkers(ws)) == WorkersInside(ws)
  {
    if At(ws, wake, Parked) {
      WorkerMoved(ws, wake, Woken);
    }
    WakeWorkersCounts(ws, SawEmpty);
    WakeWorkersCounts(ws, WillWait);
    WakeWorkersCounts(ws, PastLoop);
  }

  lemma ProducersWoken(ps: seq<ProducerPc>)
    ensures ProducersInside(WakeProducers(ps)) == ProducersInside(ps)
  {
    WakeProducersCounts(ps, SawFull);
    WakeProducersCounts(ps, WillSleep);
    WakeProducersCounts(ps, PastCheck);
  }

  lemma LockFetch(s: Pool, i: nat)
    requires LockOk(s) && Enabled(s, Work(i, Fetch))
    ensures Inside(WorkerStep(s, i, Fetch)) == 0 && !WorkerStep(s, i, Fetch).locked
  {
    WorkerMoved(s.workers, i, WorkerStep(s, i, Fetch).workers[i]);
    ProducersWoken(s.producers);
    assert s.workers[i] in s.workers;
  }

  lemma LockRelock(s: Pool, i: nat)
    requires LockOk(s) && Enabled(s, Work(i, Relock))
    ensures LockOk(WorkerStep(s, i, Relock))
  {
    WorkerMoved(s.workers, i, WorkerStep(s, i, Relock).workers[i]);
  }

  lemma LockInside(s: Pool, i: nat, w: WorkerAct)
    requires LockOk(s) && Enabled(s, Work(i, w)) && (w == Lock || w == ReadFlag || w == Park)
    ensures LockOk(WorkerStep(s, i, w))
  {
    WorkerMoved(s.workers, i, WorkerStep(s, i, w).workers[i]);
  }

  lemma LockOutside(s: Pool, i: nat, w: WorkerAct)
    requires LockOk(s) && Enabled(s, Work(i, w)) && (w == BeginWork || w == Callback || w == EndWork || w == Terminate)
    ensures LockOk(WorkerStep(s, i, w))
  {
    WorkerMoved(s.workers, i, WorkerStep(s, i, w).workers[i]);
  }

  lemma LockWorker(s: Pool, i: nat, w: WorkerAct)
    requires LockOk(s) && Enabled(s, Work(i, w))
    ensures LockOk(WorkerStep(s, i, w))
  {
    match w
    case Fetch => LockFetch(s, i);
    case Relock => LockRelock(s, i);
    case Lock | ReadFlag | Park => LockInside(s, i, w);
    case _ => LockOutside(s, i, w);
  }

  lemma LockProducer(s: Pool, p: nat, d: ProducerAct)
    requires LockOk(s) && Enabled(s, Produce(p, d))
    ensures LockOk(ProducerStep(s, p, d))
  {
    ProducerMoved(s.producers, p, ProducerStep(s, p, d).producers[p]);
    if d.Store? {
      WorkersWoken(s.workers, d.wake);
    }
  }

  lemma LockSignal(s: Pool, wake: nat)
    requires LockOk(s) && Enabled(s, Manage(SignalIdle(wake)))
    ensures LockOk(ManagerStep(s, SignalIdle(wake)))
  {
    WorkersWoken(s.workers, wake);
  }

  lemma LockScan(s: Pool)
    requires LockOk(s) && s.manager.Scanning?
    ensures LockOk(Scan(s))
  {
  }

  lemma LockManager(s: Pool, m: ManagerAct)
    requires LockOk(s) && Enabled(s, Manage(m))
    ensures LockOk(ManagerStep(s, m))
  {
    match m
    case SignalIdle(wake) => LockSignal(s, wake);
    case ScanSlot => LockScan(s);
    case _ =>
  }

  lemma LockEnvironment(s: Pool, e: EnvironmentAct)
    requires LockOk(s) && Enabled(s, Outside(e))
    ensures LockOk(EnvironmentStep(s, e))
  {
    match e
    case SpuriousWorker(i) => WorkerMoved(s.workers, i, Woken);
    case SpuriousProducer(p) => ProducerMoved(s.producers, p, Notified);
    case Broadcast => WorkersWoken(s.workers, 0);
    case SetShutdown =>
  }

  lemma LockStep(s: Pool, a: Act)
    requires LockOk(s) && Enabled(s, a)
    ensures LockOk(Apply(s, a))
  {
    match a
    case Work(i, w) => LockWorker(s, i, w);
    case Produce(p, d) => LockProducer(s, p, d);
    case Manage(m) => LockManager(s, m);
    case Outside(e) => LockEnvironment(s, e);
  }

  // ---- the queue ----

  lemma QueueWorker(s: Pool, i: nat, w: WorkerAct)
    requires LockOk(s) && QueueOk(s) && Enabled(s, Work(i, w)) && w != Fetch
    ensures QueueOk(WorkerStep(s, i, w))
  {
  }

  lemma QueueFetch(s: Pool, i: nat)
    requires LockOk(s) && QueueOk(s) && Enabled(s, Work(i, Fetch))
    requires LockOk(WorkerStep(s, i, Fetch))
    ensures QueueOk(WorkerStep(s, i, Fetch))
  {
    if !s.shutdown {
      WrappedTake(s.ring);
    }
  }

  lemma QueueProducer(s: Pool, p: nat, d: ProducerAct)
    requires LockOk(s) && QueueOk(s) && Enabled(s, Produce(p, d)) && !d.Store?
    ensures QueueOk(ProducerStep(s, p, d))
  {
  }

  lemma QueueStore(s: Pool, p: nat, wake: nat)
    requires LockOk(s) && QueueOk(s) && Enabled(s, Produce(p, Store(wake)))
    requires LockOk(ProducerStep(s, p, Store(wake)))
    ensures QueueOk(ProducerStep(s, p, Store(wake)))
  {
    if !s.shutdown {
      WrappedPut(s.ring, s.want[p]);
    }
  }

  lemma QueueManager(s: Pool, m: ManagerAct)
    requires QueueOk(s) && Enabled(s, Manage(m))
    ensures QueueOk(ManagerStep(s, m))
  {
  }

  lemma QueueEnvironment(s: Pool, e: EnvironmentAct)
    requires QueueOk(s) && Enabled(s, Outside(e))
    ensures QueueOk(EnvironmentStep(s, e))
  {
  }

  lemma QueueStep(s: Pool, a: Act)
    requires LockOk(s) && QueueOk(s) && Enabled(s, a) && LockOk(Apply(s, a))
    ensures QueueOk(Apply(s, a))
  {
    match a
    case Work(i, Fetch) => QueueFetch(s, i);
    case Work(i, w) => QueueWorker(s, i, w);
    case Produce(p, Store(wake)) => QueueStore(s, p, wake);
    case Produce(p, d) => QueueProducer(s, p, d);
    case Manage(m) => QueueManager(s, m);
    case Outside(e) => QueueEnvironment(s, e);
  }

  // ---- the accounts ----

  lemma AccountMoved(ws: seq<WorkerPc>, i: nat, pc: WorkerPc)
    requires i < |ws|
    ensures GaveUp(ws[i := pc]) == GaveUp(ws) - (if ws[i] == Retired || ws[i] == RetiredDead then 1 else 0)
                               + (if pc == Retired || pc == RetiredDead then 1 else 0)
    ensures AtWork(ws[i := pc]) == AtWork(ws) - (if ws[i] == Busy || ws[i] == Returning then 1 else 0)
                                 + (if pc == Busy || pc == Returning then 1 else 0)
  {
  }

  lemma AccountWoken(ws: seq<WorkerPc>, wake: nat)
    ensures GaveUp(Wake(ws, wake)) == GaveUp(WakeWorkers(ws)) == GaveUp(ws)
    ensures AtWork(Wake(ws, wake)) == AtWork(WakeWorkers(ws)) == AtWork(ws)
  {
    if At(ws, wake, Parked) {
      AccountMoved(ws, wake, Woken);
    }
    WakeWorkersCounts(ws, Retired);
    WakeWorkersCounts(ws, RetiredDead);
    WakeWorkersCounts(ws, Busy);
    WakeWorkersCounts(ws, Returning);
  }

  lemma AccountRelock(s: Pool, i: nat)
    requires AccountOk(s) && Enabled(s, Work(i, Relock))
    ensures AccountOk(WorkerStep(s, i, Relock))
  {
    if s.waitExit > 0 && s.live > s.minThr {
      AccountMoved(s.workers, i, Retired);
    } else {
      AccountMoved(s.workers, i, LoopTest(s));
    }
  }

  lemma AccountBegin(s: Pool, i: nat)
    requires AccountOk(s) && Enabled(s, Work(i, BeginWork))
    ensures AccountOk(WorkerStep(s, i, BeginWork))
  {
    AccountMoved(s.workers, i, Busy);
  }

  lemma AccountEnd(s: Pool, i: nat)
    requires AccountOk(s) && Enabled(s, Work(i, EndWork))
    ensures AccountOk(WorkerStep(s, i, EndWork))
  {
    AccountMoved(s.workers, i, Starting);
  }

  lemma AccountFetch(s: Pool, i: nat)
    requires AccountOk(s) && Enabled(s, Work(i, Fetch))
    ensures AccountOk(WorkerStep(s, i, Fetch))
  {
    AccountMoved(s.workers, i, if s.shutdown then Quit else Fetched);
  }

  lemma AccountLast(s: Pool, i: nat, w: WorkerAct)
    requires AccountOk(s) && Enabled(s, Work(i, w)) && (w == Callback || w == Terminate)
    ensures AccountOk(WorkerStep(s, i, w))
  {
    AccountMoved(s.workers, i, WorkerStep(s, i, w).workers[i]);
  }

  lemma AccountWait(s: Pool, i: nat, w: WorkerAct)
    requires AccountOk(s) && Enabled(s, Work(i, w)) && (w == Lock || w == ReadFlag || w == Park)
    ensures AccountOk(WorkerStep(s, i, w))
  {
    AccountMoved(s.workers, i, WorkerStep(s, i, w).workers[i]);
  }

  lemma AccountWorker(s: Pool, i: nat, w: WorkerAct)
    requires AccountOk(s) && Enabled(s, Work(i, w))
    ensures AccountOk(WorkerStep(s, i, w))
  {
    match w
    case Relock => AccountRelock(s, i);
    case BeginWork => AccountBegin(s, i);
    case EndWork => AccountEnd(s, i);
    case Fetch => AccountFetch(s, i);
    case Callback | Terminate => AccountLast(s, i, w);
    case _ => AccountWait(s, i, w);
  }

  lemma AccountScan(s: Pool)
    requires AccountOk(s) && Enabled(s, Manage(ScanSlot))
    ensures AccountOk(ManagerStep(s, ScanSlot))
  {
    AccountStarted(s.workers);
  }

  lemma AccountStarted(ws: seq<WorkerPc>)
    ensures GaveUp(ws + [Starting]) == GaveUp(ws) && AtWork(ws + [Starting]) == AtWork(ws)
  {
  }

  lemma AccountSignal(s: Pool, wake: nat)
    requires AccountOk(s) && Enabled(s, Manage(SignalIdle(wake)))
    ensures AccountOk(ManagerStep(s, SignalIdle(wake)))
  {
    AccountWoken(s.workers, wake);
  }

  lemma AccountFrame(s: Pool, s': Pool)
    requires AccountOk(s) && s'.workers == s.workers && s'.live == s.live && s'.busy == s.busy
    requires s'.minThr == s.minThr && s'.maxThr == s.maxThr
    requires s'.waitExit == s.waitExit || s'.waitExit == DEFAULT_THREAD_VARY
    ensures AccountOk(s')
  {
  }

  lemma AccountManager(s: Pool, m: ManagerAct)
    requires AccountOk(s) && Enabled(s, Manage(m))
    ensures AccountOk(ManagerStep(s, m))
  {
    match m
    case ScanSlot => AccountScan(s);
    case SignalIdle(wake) => AccountSignal(s, wake);
    case _ => AccountFrame(s, ManagerStep(s, m));
  }

  lemma AccountProducer(s: Pool, p: nat, d: ProducerAct)
    requires AccountOk(s) && Enabled(s, Produce(p, d))
    ensures AccountOk(ProducerStep(s, p, d))
  {
    if d.Store? {
      AccountWoken(s.workers, d.wake);
    }
  }

  lemma AccountEnvironment(s: Pool, e: EnvironmentAct)
    requires AccountOk(s) && Enabled(s, Outside(e))
    ensures AccountOk(EnvironmentStep(s, e))
  {
    if e.SpuriousWorker? {
      AccountMoved(s.workers, e.i, Woken);
    } else {
      AccountWoken(s.workers, 0);
    }
  }

  lemma AccountStep(s: Pool, a: Act)
    requires AccountOk(s) && Enabled(s, a)
    ensures AccountOk(Apply(s, a))
  {
    match a
    case Work(i, w) => AccountWorker(s, i, w);
    case Produce(p, d) => AccountProducer(s, p, d);
    case Manage(m) => AccountManager(s, m);
    case Outside(e) => AccountEnvironment(s, e);
  }

  lemma ScanStep(s: Pool, a: Act)
    requires ScanOk(s) && 0 <= s.maxThr && Enabled(s, a)
    ensures ScanOk(Apply(s, a))
  {
  }

  // ---- the slot table ----

  // Nobody comes back to life and the table stays as it is.
  lemma SlotsFrame(s: Pool, s': Pool)
    requires SlotsOk(s)
    requires s'.threads == s.threads && s'.slotOf == s.slotOf && s'.maxThr == s.maxThr && |s'.workers| == |s.workers|
    requires forall w :: 0 <= w < |s.workers| && Alive(s'.workers, w) ==> Alive(s.workers, w)
    ensures SlotsOk(s')
  {
  }

  lemma SlotsStart(s: Pool, i: nat)
    requires SlotsOk(s) && i < |s.threads| && SlotFree(s, i)
    ensures SlotsOk(Start(s, i))
  {
  }

  lemma SlotsWorker(s: Pool, i: nat, w: WorkerAct)
    requires SlotsOk(s) && Enabled(s, Work(i, w))
    ensures SlotsOk(WorkerStep(s, i, w))
  {
    SlotsFrame(s, WorkerStep(s, i, w));
  }

  lemma SlotsProducer(s: Pool, p: nat, d: ProducerAct)
    requires SlotsOk(s) && Enabled(s, Produce(p, d))
    ensures SlotsOk(ProducerStep(s, p, d))
  {
    SlotsFrame(s, ProducerStep(s, p, d));
  }

  lemma SlotsManager(s: Pool, m: ManagerAct)
    requires SlotsOk(s) && Enabled(s, Manage(m))
    ensures SlotsOk(ManagerStep(s, m))
  {
    if m == ScanSlot && ScanGoesOn(s, s.manager.i, s.manager.add) && SlotFree(s, s.manager.i) {
      SlotsStart(s, s.manager.i);
    } else {
      SlotsFrame(s, ManagerStep(s, m));
    }
  }

  lemma SlotsEnvironment(s: Pool, e: EnvironmentAct)
    requires SlotsOk(s) && Enabled(s, Outside(e))
    ensures SlotsOk(EnvironmentStep(s, e))
  {
    SlotsFrame(s, EnvironmentStep(s, e));
  }

  lemma SlotsStep(s: Pool, a: Act)
    requires SlotsOk(s) && Enabled(s, a)
    ensures SlotsOk(Apply(s, a))
  {
    match a
    case Work(i, w) => SlotsWorker(s, i, w);
    case Produce(p, d) => SlotsProducer(s, p, d);
    case Manage(m) => SlotsManager(s, m);
    case Outside(e) => SlotsEnvironment(s, e);
  }

  // ---- the history ----

  lemma HistoryFrame(s: Pool, s': Pool)
    requires HistoryOk(s)
    requires s'.ring == s.ring && s'.accepted == s.accepted && s'.taken == s.taken && s'.finished == s.finished
    requires s'.held == s.held && |s'.workers| == |s.workers| && |s'.want| == |s'.producers|
    requires forall i :: 0 <= i < |s.workers| ==> HasTask(s'.workers[i]) == HasTask(s.workers[i])
    ensures HistoryOk(s')
  {
  }

  lemma HistoryFetch(s: Pool, i: nat)
    requires LockOk(s) && QueueOk(s) && HistoryOk(s) && Enabled(s, Work(i, Fetch)) && !s.shutdown
    ensures HistoryOk(WorkerStep(s, i, Fetch))
  {
    WrappedTake(s.ring);
    var s' := WorkerStep(s, i, Fetch);
    var t0 := s.ring.Queue()[0];
    assert s'.taken == s.taken + [t0];
    assert s'.accepted == s'.taken + s'.ring.Queue();
    assert s.held[i] == None && s'.held == s.held[i := Some(t0)];
  }

  lemma HistoryCallback(s: Pool, i: nat)
    requires HistoryOk(s) && Enabled(s, Work(i, Callback))
    ensures HistoryOk(WorkerStep(s, i, Callback))
  {
    var s' := WorkerStep(s, i, Callback);
    var t0 := s.held[i].value;
    assert s'.finished == s.finished + [t0];
    forall t ensures multiset(s'.taken)[t] == multiset(s'.held)[Some(t)] + multiset(s'.finished)[t] {
      assert multiset(s.taken)[t] == multiset(s.held)[Some(t)] + multiset(s.finished)[t];
    }
  }

  lemma HistoryStore(s: Pool, p: nat, wake: nat)
    requires LockOk(s) && QueueOk(s) && HistoryOk(s) && Enabled(s, Produce(p, Store(wake))) && !s.shutdown
    ensures HistoryOk(ProducerStep(s, p, Store(wake)))
  {
    WrappedPut(s.ring, s.want[p]);
  }

  lemma HistoryStart(s: Pool, i: nat)
    requires HistoryOk(s) && i < |s.threads|
    ensures HistoryOk(Start(s, i))
  {
  }

  lemma HistoryScan(s: Pool)
    requires HistoryOk(s) && s.manager.Scanning?
    ensures HistoryOk(Scan(s))
  {
    if ScanGoesOn(s, s.manager.i, s.manager.add) && SlotFree(s, s.manager.i) {
      HistoryStart(s, s.manager.i);
      HistoryFrame(Start(s, s.manager.i), Scan(s));
    } else {
      HistoryFrame(s, Scan(s));
    }
  }

  lemma HistoryManager(s: Pool, m: ManagerAct)
    requires HistoryOk(s) && Enabled(s, Manage(m))
    ensures HistoryOk(ManagerStep(s, m))
  {
    match m
    case ScanSlot => HistoryScan(s);
    case _ => HistoryFrame(s, ManagerStep(s, m));
  }

  lemma HistoryRelock(s: Pool, i: nat)
    requires HistoryOk(s) && Enabled(s, Work(i, Relock))
    ensures HistoryOk(WorkerStep(s, i, Relock))
  {
    HistoryFrame(s, WorkerStep(s, i, Relock));
  }

  lemma HistoryWait(s: Pool, i: nat, w: WorkerAct)
    requires HistoryOk(s) && Enabled(s, Work(i, w)) && (w == Lock || w == ReadFlag || w == Park)
    ensures HistoryOk(WorkerStep(s, i, w))
  {
    HistoryFrame(s, WorkerStep(s, i, w));
  }

  lemma HistoryOutside(s: Pool, i: nat, w: WorkerAct)
    requires HistoryOk(s) && Enabled(s, Work(i, w))
    requires w == BeginWork || w == EndWork || w == Terminate || (w == Fetch && s.shutdown)
    ensures HistoryOk(WorkerStep(s, i, w))
  {
    HistoryFrame(s, WorkerStep(s, i, w));
  }

  lemma HistoryWorker(s: Pool, i: nat, w: WorkerAct)
    requires LockOk(s) && QueueOk(s) && HistoryOk(s) && Enabled(s, Work(i, w))
    ensures HistoryOk(WorkerStep(s, i, w))
  {
    match w
    case Callback => HistoryCallback(s, i);
    case Relock => HistoryRelock(s, i);
    case Lock | ReadFlag | Park => HistoryWait(s, i, w);
    case Fetch => if s.shutdown { HistoryOutside(s, i, w); } else { HistoryFetch(s, i); }
    case _ => HistoryOutside(s, i, w);
  }

  lemma HistoryProducer(s: Pool, p: nat, d: ProducerAct)
    requires LockOk(s) && QueueOk(s) && HistoryOk(s) && Enabled(s, Produce(p, d))
    ensures HistoryOk(ProducerStep(s, p, d))
  {
    if d.Store? && !s.shutdown {
      HistoryStore(s, p, d.wake);
    } else {
      HistoryFrame(s, ProducerStep(s, p, d));
    }
  }

  lemma HistoryEnvironment(s: Pool, e: EnvironmentAct)
    requires HistoryOk(s) && Enabled(s, Outside(e))
    ensures HistoryOk(EnvironmentStep(s, e))
  {
    HistoryFrame(s, EnvironmentStep(s, e));
  }

  lemma HistoryStep(s: Pool, a: Act)
    requires LockOk(s) && QueueOk(s) && HistoryOk(s) && Enabled(s, a)
    ensures HistoryOk(Apply(s, a))
  {
    match a
    case Work(i, w) => HistoryWorker(s, i, w);
    case Produce(p, d) => HistoryProducer(s, p, d);
    case Manage(m) => HistoryManager(s, m);
    case Outside(e) => HistoryEnvironment(s, e);
  }

  // ---- all of it ----

  lemma InvStep(s: Pool, a: Act)
    requires Inv(s) && Enabled(s, a)
    ensures Inv(Apply(s, a))
  {
    LockStep(s, a);
    QueueStep(s, a);
    AccountStep(s, a);
    ScanStep(s, a);
    SlotsStep(s, a);
    HistoryStep(s, a);
  }

  lemma {:induction false} RunInv(s: Pool, acts: seq<Act>, s': Pool)
    requires Inv(s) && Run(s, acts, s')
    ensures Inv(s')
    decreases |acts|
  {
    if acts != [] {
      InvStep(s, acts[0]);
      RunInv(Apply(s, acts[0]), acts[1..], s');
    }
  }

  // The invariant holds in every state of every run.
  lemma ReachableInv(s: Pool)
    requires Reachable(s)
    ensures Inv(s)
  {
    var s0, acts :| Init(s0) && Run(s0, acts, s);
    InitInv(s0);
    RunInv(s0, acts, s);
  }
}
