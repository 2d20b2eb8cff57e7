// concurrence_linux/14_thrpoll/threadpoolsimple.c as a step system: any number of workers
// running thrRun, any number of threads calling addtask, and one thread that may set the
// shutdown flag and broadcast.
//
// What pool_lock protects is one step; `shutdown` is written without the lock, so every
// read of it is a step of its own and the lock stays held in between.  A condition
// variable is the set of threads parked on it; a signal moves one parked thread, if there
// is one, to Woken, and a thread may also move there spuriously.

module SimplePool {
  import opened Rings
  import opened Options
  import opened Threads

  datatype Task = Task(tasknum: int, fd: int)

  datatype WorkerPc =
    | Starting  // at the top of the loop, about to lock
    | SawEmpty  // holds the lock, found job_num <= 0, about to read shutdown
    | WillWait  // holds the lock, about to wait on not_empty_task
    | Parked    // waiting on not_empty_task
    | Woken     // signalled, about to lock again
    | PastLoop  // holds the lock, left the wait loop
    | AtExit    // holds the lock, about to read shutdown a second time
    | Running   // outside the lock, in the task's callback
    | Exited

  datatype ProducerPc =
    | Idle         // not in addtask
    | Calling      // called addtask, about to lock
    | WaitingRoom  // waiting on empty_task
    | Notified     // signalled, about to lock again
    | OwesSignal   // has stored its task and unlocked, has not signalled yet

  datatype Pool = Pool(
    ring: Counters<Task>,
    num: int,                   // the global task number
    shutdown: bool,
    locked: bool,               // a worker holds pool_lock between two steps
    workers: seq<WorkerPc>,
    held: seq<Option<Task>>,    // the task each worker has copied out of the ring
    producers: seq<ProducerPc>,
    want: seq<int>,             // the fd each producer is adding
    // history
    accepted: seq<Task>,        // tasks stored, in order
    taken: seq<Task>,           // tasks copied out, in order
    finished: seq<Task>,        // tasks whose callback has returned
    dropped: seq<Task>          // tasks taken by a worker that then exited
  )

  // `wake` names the thread that a signal releases; it is ignored if none is parked.
  datatype Act =
    | Acquire(i: nat)
    | ReadFlag(i: nat)
    | Park(i: nat)
    | LeaveLoop(i: nat, wake: nat)
    | ReadFlagAgain(i: nat)
    | Execute(i: nat)
    | Call(p: nat, fd: int)
    | TryAdd(p: nat)
    | Signal(p: nat, wake: nat)
    | SpuriousWorker(i: nat)
    | SpuriousProducer(p: nat)
    | SetShutdown
    | Broadcast

  function Wake<T(==)>(pcs: seq<T>, parked: T, woken: T, wake: nat): seq<T> {
    if At(pcs, wake, parked) then pcs[wake := woken] else pcs
  }

  predicate Enabled(s: Pool, a: Act) {
    match a
    case Acquire(i) => !s.locked && (At(s.workers, i, Starting) || At(s.workers, i, Woken))
    case ReadFlag(i) => At(s.workers, i, SawEmpty)
    case Park(i) => At(s.workers, i, WillWait)
    case LeaveLoop(i, wake) => At(s.workers, i, PastLoop) && Picks(s.producers, WaitingRoom, wake)
    case ReadFlagAgain(i) => At(s.workers, i, AtExit) && i < |s.held|
    case Execute(i) => At(s.workers, i, Running) && i < |s.held|
    case Call(p, fd) => At(s.producers, p, Idle) && p < |s.want|
    case TryAdd(p) => !s.locked && p < |s.want| && (At(s.producers, p, Calling) || At(s.producers, p, Notified))
    case Signal(p, wake) => At(s.producers, p, OwesSignal) && Picks(s.workers, Parked, wake)
    case SpuriousWorker(i) => At(s.workers, i, Parked)
    case SpuriousProducer(p) => At(s.producers, p, WaitingRoom)
    case SetShutdown => true
    case Broadcast => s.shutdown
  }

  function Apply(s: Pool, a: Act): Pool
    requires Enabled(s, a)
  {
    match a
    case Acquire(i) =>
      s.(locked := true, workers := s.workers[i := if s.ring.num <= 0 then SawEmpty else PastLoop])
    case ReadFlag(i) =>
      s.(workers := s.workers[i := if s.shutdown then PastLoop else WillWait])
    case Park(i) =>
      s.(locked := false, workers := s.workers[i := Parked])
    case LeaveLoop(i, wake) =>
      if s.ring.num != 0 then TakeTask(s, i, wake) else s.(workers := s.workers[i := AtExit])
    case ReadFlagAgain(i) =>
      if s.shutdown then
        s.(locked := false, workers := s.workers[i := Exited], held := s.held[i := None],
           dropped := s.dropped + InHand(s.held[i]))
      else
        s.(locked := false, workers := s.workers[i := Running])
    case Execute(i) =>
      s.(workers := s.workers[i := Starting], held := s.held[i := None],
         finished := s.finished + InHand(s.held[i]))
    case Call(p, fd) =>
      s.(producers := s.producers[p := Calling], want := s.want[p := fd])
    case TryAdd(p) =>
      if s.ring.num >= s.ring.Max() then s.(producers := s.producers[p := WaitingRoom])
      else AddTask(s, p)
    case Signal(p, wake) =>
      s.(producers := s.producers[p := Idle], workers := Wake(s.workers, Parked, Woken, wake))
    case SpuriousWorker(i) => s.(workers := s.workers[i := Woken])
    case SpuriousProducer(p) => s.(producers := s.producers[p := Notified])
    case SetShutdown => s.(shutdown := true)
    case Broadcast => s.(workers := WakeAll(s.workers))
  }

  function InHand(t: Option<Task>): seq<Task> { if t.Some? then [t.value] else [] }

  function WakeAll(ws: seq<WorkerPc>): (r: seq<WorkerPc>) {
    seq(|ws|, i requires 0 <= i < |ws| => if ws[i] == Parked then Woken else ws[i])
  }

  function TakeTask(s: Pool, i: nat, wake: nat): Pool
    requires i < |s.workers|
  {
    s.(ring := s.ring.Take(),
       workers := s.workers[i := AtExit],
       held := if i < |s.held| && s.ring.Front() != [] then s.held[i := Some(s.ring.Front()[0])] else s.held,
       taken := s.taken + s.ring.Front(),
       producers := Wake(s.producers, WaitingRoom, Notified, wake))
  }

  function AddTask(s: Pool, p: nat): Pool
    requires p < |s.producers| && p < |s.want|
  {
    var t := Task(s.num, s.want[p]);
    s.(ring := s.ring.Put(t), num := s.num + 1, producers := s.producers[p := OwesSignal],
       accepted := s.accepted + [t])
  }

  // ---- runs ----

  ghost predicate Init(s: Pool) {
    && s.ring.push == s.ring.pop == s.ring.num == 0
    && s.num == 0 && !s.shutdown && !s.locked
    && |s.held| == |s.workers| && |s.want| == |s.producers|
    && (forall i :: 0 <= i < |s.workers| ==> s.workers[i] == Starting && s.held[i] == None)
    && (forall p :: 0 <= p < |s.producers| ==> s.producers[p] == Idle)
    && s.accepted == s.taken == s.finished == s.dropped == []
  }

  ghost predicate Run(s: Pool, acts: seq<Act>, s': Pool)
    decreases |acts|
  {
    if acts == [] then s == s'
    else Enabled(s, acts[0]) && Run(Apply(s, acts[0]), acts[1..], s')
  }

  ghost predicate Reachable(s: Pool) {
    exists s0, acts :: Init(s0) && Run(s0, acts, s)
  }

  // ---- the invariant ----

  ghost predicate Shape(s: Pool) {
    && |s.held| == |s.workers| && |s.want| == |s.producers|
    && Count(s.workers, SawEmpty) + Count(s.workers, WillWait) + Count(s.workers, PastLoop) + Count(s.workers, AtExit)
         == (if s.locked then 1 else 0)
    && (SawEmpty in s.workers || WillWait in s.workers ==> s.ring.num == 0)
    && (PastLoop in s.workers ==> s.ring.num > 0 || s.shutdown)
    && (Exited in s.workers || s.dropped != [] ==> s.shutdown)
    && (forall i :: 0 <= i < |s.workers| ==> HeldOk(s.workers[i], s.held[i], s.shutdown))
  }

  // A task is in hand exactly from the dequeue to the return of its callback, and the
  // callback is never entered without one.
  ghost predicate HeldOk(pc: WorkerPc, t: Option<Task>, shutdown: bool) {
    && (pc == Running ==> t.Some?)
    && (pc == AtExit ==> t.Some? || shutdown)
    && (pc != Running && pc != AtExit ==> t.None?)
  }

  ghost predicate History(s: Pool) {
    && s.ring.Valid()
    && s.accepted == s.taken + s.ring.Queue()
    && s.num == s.ring.push == |s.accepted| && s.ring.pop == |s.taken|
    && (forall k :: 0 <= k < |s.accepted| ==> s.accepted[k].tasknum == k)
    && (forall t :: multiset(s.taken)[t] == Fate(s, t))
  }

  // In how many places a task that left the ring can be found.
  ghost function Fate(s: Pool, t: Task): nat {
    multiset(s.held)[Some(t)] + multiset(s.finished)[t] + multiset(s.dropped)[t]
  }

  // No wake-up is lost: while a worker is parked, every queued task is matched by a woken
  // worker, by a producer that still owes its signal, or by the lock holder about to take
  // it; while a producer is parked, every free slot is matched by a notified producer.
  ghost predicate Wakeups(s: Pool) {
    && (Parked in s.workers ==>
          s.ring.num <= Count(s.workers, Woken) + Count(s.producers, OwesSignal) + Count(s.workers, PastLoop))
    && (WaitingRoom in s.producers ==> s.ring.Max() - s.ring.num <= Count(s.producers, Notified))
  }

  ghost predicate Inv(s: Pool) { Shape(s) && History(s) && Wakeups(s) }

  lemma InitInv(s: Pool)
    requires Init(s)
    ensures Inv(s)
  {
    forall t ensures multiset(s.held)[Some(t)] == 0 {
      assert Some(t) !in s.held;
    }
    assert forall pc :: pc in s.workers ==> pc == Starting;
    assert Count(s.workers, SawEmpty) == Count(s.workers, WillWait) == Count(s.workers, PastLoop) == Count(s.workers, AtExit) == 0 by {
      assert SawEmpty !in s.workers && WillWait !in s.workers && PastLoop !in s.workers && AtExit !in s.workers;
    }
  }

  lemma WakeAllCounts(ws: seq<WorkerPc>, pc: WorkerPc)
    requires pc != Parked && pc != Woken
    ensures Count(WakeAll(ws), pc) == Count(ws, pc) && Parked !in WakeAll(ws)
  {
    if ws != [] {
      var w := |ws| - 1;
      WakeAllCounts(ws[..w], pc);
      assert ws == ws[..w] + [ws[w]];
      assert WakeAll(ws) == WakeAll(ws[..w]) + [if ws[w] == Parked then Woken else ws[w]];
    }
  }

  // -- Shape --

  lemma ShapeAcquire(s: Pool, i: nat)
    requires Inv(s) && Enabled(s, Acquire(i))
    ensures Shape(Apply(s, Acquire(i)))
  {
  }

  lemma ShapeWait(s: Pool, a: Act)
    requires Inv(s) && Enabled(s, a) && (a.ReadFlag? || a.Park?)
    ensures Shape(Apply(s, a))
  {
  }

  lemma ShapeTake(s: Pool, i: nat, wake: nat)
    requires Shape(s) && s.ring.Valid() && Enabled(s, LeaveLoop(i, wake)) && s.ring.num != 0
    ensures Shape(TakeTask(s, i, wake))
  {
    CountersTake(s.ring);
  }

  lemma ShapeLeaveLoop(s: Pool, i: nat, wake: nat)
    requires Inv(s) && Enabled(s, LeaveLoop(i, wake))
    ensures Shape(Apply(s, LeaveLoop(i, wake)))
  {
    if s.ring.num != 0 {
      ShapeTake(s, i, wake);
    }
  }

  lemma ShapeReadFlagAgain(s: Pool, i: nat)
    requires Inv(s) && Enabled(s, ReadFlagAgain(i))
    ensures Shape(Apply(s, ReadFlagAgain(i)))
  {
  }

  lemma ShapeExecute(s: Pool, i: nat)
    requires Inv(s) && Enabled(s, Execute(i))
    ensures Shape(Apply(s, Execute(i)))
  {
  }

  lemma ShapeSignal(s: Pool, p: nat, wake: nat)
    requires Inv(s) && Enabled(s, Signal(p, wake))
    ensures Shape(Apply(s, Signal(p, wake)))
  {
  }

  lemma ShapeSpuriousWorker(s: Pool, i: nat)
    requires Inv(s) && Enabled(s, SpuriousWorker(i))
    ensures Shape(Apply(s, SpuriousWorker(i)))
  {
  }

  lemma ShapeBroadcast(s: Pool)
    requires Inv(s) && Enabled(s, Broadcast)
    ensures Shape(Apply(s, Broadcast))
  {
    WakeAllCounts(s.workers, SawEmpty);
    WakeAllCounts(s.workers, WillWait);
    WakeAllCounts(s.workers, PastLoop);
    WakeAllCounts(s.workers, AtExit);
  }

  lemma ShapeProducer(s: Pool, a: Act)
    requires Inv(s) && Enabled(s, a) && (a.Call? || a.TryAdd? || a.SpuriousProducer? || a.SetShutdown?)
    ensures Shape(Apply(s, a))
  {
  }

  lemma ShapeStep(s: Pool, a: Act)
    requires Inv(s) && Enabled(s, a)
    ensures Shape(Apply(s, a))
  {
    match a
    case Acquire(i) => ShapeAcquire(s, i);
    case ReadFlag(_) | Park(_) => ShapeWait(s, a);
    case LeaveLoop(i, wake) => ShapeLeaveLoop(s, i, wake);
    case ReadFlagAgain(i) => ShapeReadFlagAgain(s, i);
    case Execute(i) => ShapeExecute(s, i);
    case Signal(p, wake) => ShapeSignal(s, p, wake);
    case SpuriousWorker(i) => ShapeSpuriousWorker(s, i);
    case Broadcast => ShapeBroadcast(s);
    case _ => ShapeProducer(s, a);
  }

  // -- History --

  lemma HistoryTake(s: Pool, i: nat, wake: nat)
    requires Inv(s) && Enabled(s, LeaveLoop(i, wake)) && s.ring.num != 0
    ensures History(Apply(s, LeaveLoop(i, wake)))
  {
    CountersTake(s.ring);
    var s' := Apply(s, LeaveLoop(i, wake));
    var t0 := s.ring.Queue()[0];
    assert s'.taken == s.taken + [t0];
    assert s'.accepted == s'.taken + s'.ring.Queue();
    assert s.held[i] == None && s'.held == s.held[i := Some(t0)];
    forall t ensures multiset(s'.taken)[t] == Fate(s', t) {
      assert multiset(s.taken)[t] == Fate(s, t);
    }
  }

  lemma HistoryReadFlagAgain(s: Pool, i: nat)
    requires Inv(s) && Enabled(s, ReadFlagAgain(i))
    ensures History(Apply(s, ReadFlagAgain(i)))
  {
  }

  lemma HistoryExecute(s: Pool, i: nat)
    requires Inv(s) && Enabled(s, Execute(i))
    ensures History(Apply(s, Execute(i)))
  {
  }

  lemma HistoryAdd(s: Pool, p: nat)
    requires Inv(s) && Enabled(s, TryAdd(p))
    ensures History(Apply(s, TryAdd(p)))
  {
    if s.ring.num < s.ring.Max() {
      CountersPut(s.ring, Task(s.num, s.want[p]));
    }
  }

  lemma HistoryFrame(s: Pool, s': Pool)
    requires History(s)
    requires s'.ring == s.ring && s'.num == s.num && s'.accepted == s.accepted && s'.taken == s.taken
    requires s'.held == s.held && s'.finished == s.finished && s'.dropped == s.dropped
    ensures History(s')
  {
    forall t ensures multiset(s'.taken)[t] == Fate(s', t) {
      assert Fate(s', t) == Fate(s, t);
    }
  }

  lemma HistoryStep(s: Pool, a: Act)
    requires Inv(s) && Enabled(s, a)
    ensures History(Apply(s, a))
  {
    match a
    case LeaveLoop(i, wake) => if s.ring.num != 0 { HistoryTake(s, i, wake); } else { HistoryFrame(s, Apply(s, a)); }
    case ReadFlagAgain(i) => HistoryReadFlagAgain(s, i);
    case Execute(i) => HistoryExecute(s, i);
    case TryAdd(p) => HistoryAdd(s, p);
    case _ => HistoryFrame(s, Apply(s, a));
  }

  // -- Wakeups --

  lemma WakeupsWorker(s: Pool, a: Act)
    requires Inv(s) && Enabled(s, a)
    requires a.ReadFlag? || a.ReadFlagAgain? || a.Execute?
    ensures Wakeups(Apply(s, a))
  {
  }

  lemma WakeupsAcquire(s: Pool, i: nat)
    requires Inv(s) && Enabled(s, Acquire(i))
    ensures Wakeups(Apply(s, Acquire(i)))
  {
  }

  lemma WakeupsPark(s: Pool, i: nat)
    requires Inv(s) && Enabled(s, Park(i))
    ensures Wakeups(Apply(s, Park(i)))
  {
  }

  lemma WakeupsLeaveLoop(s: Pool, i: nat, wake: nat)
    requires Inv(s) && Enabled(s, LeaveLoop(i, wake))
    ensures Wakeups(Apply(s, LeaveLoop(i, wake)))
  {
  }

  lemma WakeupsTryAdd(s: Pool, p: nat)
    requires Inv(s) && Enabled(s, TryAdd(p))
    ensures Wakeups(Apply(s, TryAdd(p)))
  {
  }

  lemma WakeupsSignal(s: Pool, p: nat, wake: nat)
    requires Inv(s) && Enabled(s, Signal(p, wake))
    ensures Wakeups(Apply(s, Signal(p, wake)))
  {
  }

  lemma WakeupsSpuriousWorker(s: Pool, i: nat)
    requires Inv(s) && Enabled(s, SpuriousWorker(i))
    ensures Wakeups(Apply(s, SpuriousWorker(i)))
  {
  }

  lemma WakeupsEnvironment(s: Pool, a: Act)
    requires Inv(s) && Enabled(s, a)
    requires a.Call? || a.SpuriousProducer? || a.SetShutdown?
    ensures Wakeups(Apply(s, a))
  {
  }

  lemma WakeupsStep(s: Pool, a: Act)
    requires Inv(s) && Enabled(s, a)
    ensures Wakeups(Apply(s, a))
  {
    match a
    case LeaveLoop(i, wake) => WakeupsLeaveLoop(s, i, wake);
    case TryAdd(p) => WakeupsTryAdd(s, p);
    case Signal(p, wake) => WakeupsSignal(s, p, wake);
    case Park(i) => WakeupsPark(s, i);
    case Acquire(i) => WakeupsAcquire(s, i);
    case ReadFlag(_) | ReadFlagAgain(_) | Execute(_) => WakeupsWorker(s, a);
    case Broadcast => WakeAllCounts(s.workers, PastLoop);
    case SpuriousWorker(i) => WakeupsSpuriousWorker(s, i);
    case _ => WakeupsEnvironment(s, a);
  }

  // Every step keeps the invariant.
  lemma InvStep(s: Pool, a: Act)
    requires Inv(s) && Enabled(s, a)
    ensures Inv(Apply(s, a))
  {
    ShapeStep(s, a);
    HistoryStep(s, a);
    WakeupsStep(s, a);
  }

  lemma {:induction false} RunInv(s: Pool, acts: seq<Act>, s': Pool)
    requires Inv(s) && Run(s, acts, s')
    ensures Inv(s')
    decreases |acts|
  {
    if acts != [] {
      InvStep(s, acts[0]);
      RunInv(Apply(s, acts[0]), acts[1..], s');
    }
  }

  lemma ReachableInv(s: Pool)
    requires Reachable(s)
    ensures Inv(s)
  {
    var s0, acts :| Init(s0) && Run(s0, acts, s);
    InitInv(s0);
    RunInv(s0, acts, s);
  }

  // ---- what every run guarantees ----

  // First in, first out, numbered in order: the tasks copied out so far are the tasks
  // stored first, and the k-th of them carries task number k.
  lemma FirstInFirstOut(s: Pool)
    requires Reachable(s)
    ensures s.taken <= s.accepted && |s.accepted| - |s.taken| == s.ring.num
    ensures s.num == |s.accepted|
    ensures forall k :: 0 <= k < |s.taken| ==> s.taken[k].tasknum == k
  {
    ReachableInv(s);
    assert forall k :: 0 <= k < |s.taken| ==> s.taken[k] == s.accepted[k];
  }

  // Exactly once: a task that has left the ring is in exactly one place - in one worker's
  // hand, finished once, or dropped at shutdown - and a queued task is in none.
  lemma ExactlyOnce(s: Pool, k: nat)
    requires Reachable(s) && k < |s.accepted|
    ensures Fate(s, s.accepted[k]) == if k < |s.taken| then 1 else 0
    ensures s.dropped != [] ==> s.shutdown
  {
    ReachableInv(s);
    var t := s.accepted[k];
    assert forall j :: 0 <= j < |s.taken| ==> s.taken[j] == s.accepted[j];
    if k < |s.taken| {
      OccursOnce(s.taken, k);
    } else {
      assert t !in s.taken;
    }
  }

  lemma OccursOnce(ts: seq<Task>, k: nat)
    requires k < |ts| && forall i, j :: 0 <= i < j < |ts| ==> ts[i] != ts[j]
    ensures multiset(ts)[ts[k]] == 1
  {
    var t := ts[k];
    assert ts == ts[..k] + [t] + ts[k + 1..];
    assert t !in ts[..k] && t !in ts[k + 1..];
    assert multiset(ts) == multiset(ts[..k]) + multiset{t} + multiset(ts[k + 1..]);
  }

  // The array and the callback are never misused, shutdown or not: a store happens only
  // below the limit, a copy only from a non-empty ring, and a callback runs only on a task
  // that was just copied out.
  lemma NoMisuse(s: Pool, a: Act)
    requires Reachable(s) && Enabled(s, a)
    ensures 0 <= s.ring.num <= s.ring.Max()
    ensures a.Execute? ==> s.held[a.i].Some? && s.held[a.i].value in s.taken
    ensures a.ReadFlagAgain? && !s.shutdown ==> s.held[a.i].Some?
  {
    ReachableInv(s);
    if a.Execute? {
      var t := s.held[a.i].value;
      assert Some(t) in multiset(s.held);
      assert multiset(s.taken)[t] == Fate(s, t);
    }
  }

  // No lost wake-up, in the states where the lock is free.
  lemma NoLostWakeup(s: Pool)
    requires Reachable(s) && !s.locked
    ensures Parked in s.workers ==> s.ring.num <= Count(s.workers, Woken) + Count(s.producers, OwesSignal)
    ensures WaitingRoom in s.producers ==> s.ring.Max() - s.ring.num <= Count(s.producers, Notified)
  {
    ReachableInv(s);
  }

  // No deadlock: never is every worker parked and every producer waiting, and never are
  // jobs queued with every worker parked and no signal owed.
  lemma NoDeadlock(s: Pool)
    requires Reachable(s) && s.ring.Max() >= 1 && |s.workers| >= 1 && |s.producers| >= 1
    requires forall i :: 0 <= i < |s.workers| ==> s.workers[i] == Parked
    ensures exists p :: 0 <= p < |s.producers| && s.producers[p] != WaitingRoom
    ensures s.ring.num > 0 ==> OwesSignal in s.producers
  {
    ReachableInv(s);
    assert s.workers[0] == Parked;
    assert Woken !in s.workers && PastLoop !in s.workers;
    if forall p :: 0 <= p < |s.producers| ==> s.producers[p] == WaitingRoom {
      assert false;
    }
  }

  // ---- liveness: left alone, the pool finishes everything ----

  // The steps the pool itself takes; not new calls, spurious wake-ups or shutdown.
  predicate Internal(a: Act) {
    a.Acquire? || a.ReadFlag? || a.Park? || a.LeaveLoop? || a.ReadFlagAgain? || a.Execute? || a.TryAdd? || a.Signal?
  }

  ghost predicate InternalRun(s: Pool, acts: seq<Act>, s': Pool) {
    Run(s, acts, s') && forall k :: 0 <= k < |acts| ==> Internal(acts[k])
  }

  // No job is queued, no worker is at work, and every call of addtask has returned.
  ghost predicate Done(s: Pool) {
    && s.ring.num == 0
    && (forall i :: 0 <= i < |s.workers| ==> s.workers[i] == Parked)
    && (forall p :: 0 <= p < |s.producers| ==> s.producers[p] == Idle)
  }

  function Measure(s: Pool): int {
    20 * s.ring.num + Sum(s.workers, WorkerWeight) + Sum(s.held, TaskWeight) + Sum(s.producers, ProducerWeight)
  }

  function TaskWeight(t: Option<Task>): nat { if t.Some? then 10 else 0 }

  function WorkerWeight(pc: WorkerPc): nat {
    match pc
    case Starting | Woken => 4
    case SawEmpty => 3
    case PastLoop => 2
    case WillWait | AtExit => 1
    case Parked | Running | Exited => 0
  }

  function ProducerWeight(pc: ProducerPc): nat {
    match pc
    case Calling | Notified => 41
    case WaitingRoom => 40
    case OwesSignal => 5
    case Idle => 0
  }

  // One worker's step moves that worker and its task only.
  lemma WorkerMoved(s: Pool, s': Pool, i: nat)
    requires i < |s.workers| == |s.held|
    requires |s'.workers| == |s.workers| && s'.workers == s.workers[i := s'.workers[i]]
    requires |s'.held| == |s.held| && s'.held == s.held[i := s'.held[i]]
    ensures Sum(s'.workers, WorkerWeight) + Sum(s'.held, TaskWeight)
              - (WorkerWeight(s'.workers[i]) + TaskWeight(s'.held[i]))
            == Sum(s.workers, WorkerWeight) + Sum(s.held, TaskWeight)
              - (WorkerWeight(s.workers[i]) + TaskWeight(s.held[i]))
  {
    SumUpdate(s.workers, i, s'.workers[i], WorkerWeight);
    SumUpdate(s.held, i, s'.held[i], TaskWeight);
  }

  lemma MeasureWorker(s: Pool, a: Act)
    requires Inv(s) && Enabled(s, a)
    requires a.Acquire? || a.ReadFlag? || a.Park?
    ensures Measure(Apply(s, a)) < Measure(s)
  {
    WorkerMoved(s, Apply(s, a), a.i);
  }

  lemma MeasureReadFlagAgain(s: Pool, i: nat)
    requires Inv(s) && Enabled(s, ReadFlagAgain(i))
    ensures Measure(Apply(s, ReadFlagAgain(i))) < Measure(s)
  {
    WorkerMoved(s, Apply(s, ReadFlagAgain(i)), i);
  }

  lemma MeasureExecute(s: Pool, i: nat)
    requires Inv(s) && Enabled(s, Execute(i))
    ensures Measure(Apply(s, Execute(i))) < Measure(s)
  {
    WorkerMoved(s, Apply(s, Execute(i)), i);
  }

  lemma MeasureLeaveLoop(s: Pool, i: nat, wake: nat)
    requires Inv(s) && Enabled(s, LeaveLoop(i, wake))
    ensures Measure(Apply(s, LeaveLoop(i, wake))) < Measure(s)
  {
    WorkerMoved(s, Apply(s, LeaveLoop(i, wake)), i);
    if WaitingRoom in s.producers {
      SumUpdate(s.producers, wake, Notified, ProducerWeight);
    }
  }

  lemma MeasureTryAdd(s: Pool, p: nat)
    requires Inv(s) && Enabled(s, TryAdd(p))
    ensures Measure(Apply(s, TryAdd(p))) < Measure(s)
  {
    var s' := Apply(s, TryAdd(p));
    SumUpdate(s.producers, p, s'.producers[p], ProducerWeight);
  }

  lemma MeasureSignal(s: Pool, p: nat, wake: nat)
    requires Inv(s) && Enabled(s, Signal(p, wake))
    ensures Measure(Apply(s, Signal(p, wake))) < Measure(s)
  {
    var s' := Apply(s, Signal(p, wake));
    SumUpdate(s.producers, p, Idle, ProducerWeight);
    if Parked in s.workers {
      WorkerMoved(s, s', wake);
    }
  }

  lemma MeasureStep(s: Pool, a: Act)
    requires Inv(s) && Enabled(s, a) && Internal(a)
    ensures Measure(Apply(s, a)) < Measure(s)
  {
    match a
    case LeaveLoop(i, wake) => MeasureLeaveLoop(s, i, wake);
    case TryAdd(p) => MeasureTryAdd(s, p);
    case Signal(p, wake) => MeasureSignal(s, p, wake);
    case Execute(i) => MeasureExecute(s, i);
    case ReadFlagAgain(i) => MeasureReadFlagAgain(s, i);
    case _ => MeasureWorker(s, a);
  }

  lemma MeasureNonNegative(s: Pool)
    requires Inv(s)
    ensures Measure(s) >= 0
  {
  }

  lemma StepKeepsSize(s: Pool, a: Act)
    requires Inv(s) && Enabled(s, a) && Internal(a)
    ensures Apply(s, a).shutdown == s.shutdown
    ensures Apply(s, a).ring.Max() == s.ring.Max() && |Apply(s, a).workers| == |s.workers|
  {
  }

  lemma {:induction false} InternalRunIsBounded(s: Pool, acts: seq<Act>, s': Pool)
    requires Inv(s) && InternalRun(s, acts, s')
    ensures |acts| + Measure(s') <= Measure(s)
    ensures s'.shutdown == s.shutdown && s'.ring.Max() == s.ring.Max() && |s'.workers| == |s.workers|
    decreases |acts|
  {
    if acts != [] {
      var s1 := Apply(s, acts[0]);
      assert Internal(acts[0]);
      StepKeepsSize(s, acts[0]);
      InvStep(s, acts[0]);
      MeasureStep(s, acts[0]);
      assert forall k :: 0 <= k < |acts[1..]| ==> acts[1..][k] == acts[k + 1];
      InternalRunIsBounded(s1, acts[1..], s');
    }
  }

  // A worker that is not parked can move, or another worker has the lock and can.
  lemma WorkerCanMove(s: Pool, i: nat) returns (a: Act)
    requires Inv(s) && i < |s.workers| && s.workers[i] != Parked && s.workers[i] != Exited
    requires s.locked ==> s.workers[i] in {SawEmpty, WillWait, PastLoop, AtExit}
    ensures Internal(a) && Enabled(s, a)
  {
    match s.workers[i]
    case Starting | Woken => a := Acquire(i);
    case SawEmpty => a := ReadFlag(i);
    case WillWait => a := Park(i);
    case PastLoop =>
      var wake := PickParked(s.producers, WaitingRoom);
      a := LeaveLoop(i, wake);
    case AtExit => a := ReadFlagAgain(i);
    case Running => a := Execute(i);
    case Exited => assert false;
  }

  lemma ProducerCanMove(s: Pool, p: nat) returns (a: Act)
    requires Inv(s) && !s.locked && p < |s.producers| && s.producers[p] in {Calling, Notified, OwesSignal}
    ensures Internal(a) && Enabled(s, a)
  {
    if s.producers[p] == OwesSignal {
      var wake := PickParked(s.workers, Parked);
      a := Signal(p, wake);
    } else {
      a := TryAdd(p);
    }
  }

  // Unless everything is done, some step of the pool's own is enabled.
  lemma Progress(s: Pool) returns (a: Act)
    requires Inv(s) && !s.shutdown && s.ring.Max() >= 1 && |s.workers| >= 1 && !Done(s)
    ensures Internal(a) && Enabled(s, a)
  {
    if s.locked {
      assert SawEmpty in s.workers || WillWait in s.workers || PastLoop in s.workers || AtExit in s.workers;
      var i: nat :| i < |s.workers| && s.workers[i] in {SawEmpty, WillWait, PastLoop, AtExit};
      a := WorkerCanMove(s, i);
    } else if i: nat :| i < |s.workers| && s.workers[i] != Parked {
      a := WorkerCanMove(s, i);
    } else if p: nat :| p < |s.producers| && s.producers[p] in {Calling, Notified, OwesSignal} {
      a := ProducerCanMove(s, p);
    } else {
      assert false;
    }
  }

  // Without shutdown, however the pool is scheduled: its own steps cannot go on for more
  // than Measure(s) steps, and when none is left every accepted task has been executed
  // exactly once and every caller of addtask has returned.
  lemma EveryTaskIsExecuted(s: Pool, acts: seq<Act>, s': Pool)
    requires Reachable(s) && !s.shutdown && s.ring.Max() >= 1 && |s.workers| >= 1
    requires InternalRun(s, acts, s')
    ensures |acts| <= Measure(s)
    ensures (forall a :: Internal(a) ==> !Enabled(s', a)) ==>
              Done(s') && s'.taken == s'.accepted && multiset(s'.finished) == multiset(s'.accepted)
  {
    ReachableInv(s);
    InternalRunIsBounded(s, acts, s');
    RunInv(s, acts, s');
    MeasureNonNegative(s');
    if forall a :: Internal(a) ==> !Enabled(s', a) {
      if !Done(s') {
        var a := Progress(s');
        assert false;
      }
      AllFinished(s');
    }
  }

  lemma AllFinished(s: Pool)
    requires Inv(s) && Done(s) && !s.shutdown
    ensures s.taken == s.accepted && multiset(s.finished) == multiset(s.accepted)
  {
    forall t ensures multiset(s.accepted)[t] == multiset(s.finished)[t] {
      assert Some(t) !in s.held;
      assert multiset(s.taken)[t] == Fate(s, t);
    }
  }

  // ---- the ring as the source keeps it: fields and an array updated in place ----

  class TaskRing {
    var jobPush: int
    var jobPop: int
    var jobNum: int
    var num: int
    const tasks: array<Task>

    function View(): Counters<Task>
      reads this, tasks
    {
      Counters(tasks[..], jobPush, jobPop, jobNum)
    }

    constructor (maxJobNum: nat)
      ensures View().Valid() && View().Queue() == [] && View().Max() == maxJobNum && num == 0
    {
      jobPush, jobPop, jobNum, num := 0, 0, 0, 0;
      tasks := new Task[maxJobNum];
    }

    // The body of addtask between the wait loop and the unlock.
    method Add(fd: int)
      requires View().Valid() && jobNum < tasks.Length
      modifies this, tasks
      ensures View() == old(View()).Put(Task(old(num), fd)) && num == old(num) + 1
      ensures View().Valid() && View().Queue() == old(View().Queue()) + [Task(old(num), fd)]
    {
      CountersPut(View(), Task(num, fd));
      var pos := jobPush % tasks.Length;
      jobPush := jobPush + 1;
      tasks[pos] := Task(num, fd);
      num := num + 1;
      jobNum := jobNum + 1;
    }

    // The dequeue in thrRun: the worker's private copy of the oldest task.
    method Remove() returns (task: Task)
      requires View().Valid() && jobNum != 0
      modifies this
      ensures View() == old(View()).Take() && old(View()).Front() == [task] && num == old(num)
      ensures View().Valid() && old(View().Queue()) == [task] + View().Queue()
    {
      CountersTake(View());
      var taskpos := jobPop % tasks.Length;
      jobPop := jobPop + 1;
      task := tasks[taskpos];
      jobNum := jobNum - 1;
    }
  }
}
