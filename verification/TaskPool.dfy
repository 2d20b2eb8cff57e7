// concurrence_linux/14_thrpoll/threadpool.c as a step system: any number of threads calling
// threadpool_add, the worker threads, the managing thread that starts and retires workers
// on the strength of stale snapshots, and one thread that may set the shutdown flag.
//
// Locks, condition variables and the flag are modelled as in SimplePool: what `lock` or
// `thread_counter` protects is one step, and a read of `shutdown`, which is written
// without the lock, is a step of its own.  Thread identifiers are never reused.

module TaskPool {
  import opened Rings
  import opened Options
  import opened Threads

  // A function pointer with its argument; the pool never looks inside.
  type Task = int

  datatype WorkerPc =
    | Starting   // at the top of the loop, about to lock
    | SawEmpty   // holds the lock, found queue_size == 0, about to read shutdown
    | WillWait   // holds the lock, about to wait on queue_not_empty
    | Parked     // waiting on queue_not_empty
    | Woken      // signalled, about to lock again
    | PastLoop   // holds the lock, left the wait loop
    | Fetched    // has a task, busy_thr_num not yet raised
    | Busy       // in the task's callback
    | Returning  // callback done, busy_thr_num not yet lowered
    | Retired    // gave itself up at the manager's request, still terminating
    | RetiredDead
    | Quit       // saw shutdown, still terminating
    | QuitDead

  datatype ProducerPc =
    | Idle         // not in threadpool_add
    | Calling      // about to lock
    | SawFull      // holds the lock, found the queue full, about to read shutdown
    | WillSleep    // holds the lock, about to wait on queue_not_full
    | WaitingRoom  // waiting on queue_not_full
    | Notified     // woken, about to lock again
    | PastCheck    // holds the lock, left the wait loop

  datatype ManagerPc =
    | Top
    | Asleep
    | SawQueue(queueSize: int, liveThen: int)
    | SawBusy(queueSize: int, liveThen: int, busyThen: int)
    | Scanning(i: int, add: int, liveThen: int, busyThen: int)  // holds the lock
    | GrowDone(liveThen: int, busyThen: int)
    | Signalling(sent: int)
    | Gone

  datatype Pool = Pool(
    ring: Wrapped<Task>,
    minThr: int, maxThr: int, live: int, busy: int, waitExit: int,
    shutdown: bool,
    locked: bool,              // some thread holds `lock` between two steps
    threads: seq<Option<nat>>, // the slot table: which worker was last started in a slot
    workers: seq<WorkerPc>, held: seq<Option<Task>>,
    producers: seq<ProducerPc>, want: seq<Task>,
    manager: ManagerPc,
    // history
    slotOf: seq<nat>,          // the slot each worker was started in
    accepted: seq<Task>, taken: seq<Task>, finished: seq<Task>
  )

  const MIN_WAIT_TASK_NUM := 10
  const DEFAULT_THREAD_VARY := 10

  function Wake(ws: seq<WorkerPc>, wake: nat): seq<WorkerPc> {
    if At(ws, wake, Parked) then ws[wake := Woken] else ws
  }

  function WakeWorkers(ws: seq<WorkerPc>): seq<WorkerPc> {
    seq(|ws|, i requires 0 <= i < |ws| => if ws[i] == Parked then Woken else ws[i])
  }

  function WakeProducers(ps: seq<ProducerPc>): seq<ProducerPc> {
    seq(|ps|, p requires 0 <= p < |ps| => if ps[p] == WaitingRoom then Notified else ps[p])
  }

  // What pthread_kill(tid, 0) answers: a thread is alive until it has terminated.
  predicate Alive(ws: seq<WorkerPc>, w: nat) {
    w < |ws| && ws[w] != RetiredDead && ws[w] != QuitDead
  }

  predicate SlotFree(s: Pool, i: nat)
    requires i < |s.threads|
  {
    s.threads[i].None? || !Alive(s.workers, s.threads[i].value)
  }

  datatype WorkerAct =
    | Lock       // 184-187: lock and test queue_size
    | Relock     // 190-206, 187: wait returns with the lock; retire, or test queue_size again
    | ReadFlag   // 187: read shutdown
    | Park       // 190: wait, releasing the lock
    | Fetch      // 210-229: read shutdown; quit, or dequeue, broadcast and unlock
    | BeginWork  // 233-235
    | Callback   // 237
    | EndWork    // 242-244
    | Terminate  // the thread ends

  datatype ProducerAct =
    | Call(task: Task)
    | LockQueue        // 139-142: lock and test queue_size
    | ReadFlagFull     // 142: read shutdown
    | Sleep            // 144: wait, releasing the lock
    | Store(wake: nat) // 147-168: read shutdown; give up, or enqueue, signal and unlock

  datatype ManagerAct =
    | ManagerLoop      // 255: read shutdown
    | SnapshotQueue    // 260-263
    | SnapshotBusy     // 265-267
    | GrowDecision     // 270-273
    | ScanSlot         // 276-287: one turn of the scan, or its end and the unlock
    | ShrinkDecision   // 291-296
    | SignalIdle(wake: nat) // 298-302: one signal, or the end of the loop

  datatype EnvironmentAct =
    | SpuriousWorker(i: nat) | SpuriousProducer(p: nat)
    | SetShutdown      // 317
    | Broadcast        // 322-326

  datatype Act =
    | Work(i: nat, w: WorkerAct) | Produce(p: nat, d: ProducerAct) | Manage(m: ManagerAct) | Outside(e: EnvironmentAct)

  predicate Enabled(s: Pool, a: Act) {
    match a
    case Work(i, w) => i < |s.workers| && i < |s.held| && WorkerEnabled(s, s.workers[i], w)
    case Produce(p, d) => p < |s.producers| && p < |s.want| && ProducerEnabled(s, s.producers[p], d)
    case Manage(m) => ManagerEnabled(s, s.manager, m)
    case Outside(e) => EnvironmentEnabled(s, e)
  }

  function Apply(s: Pool, a: Act): Pool
    requires Enabled(s, a)
  {
    match a
    case Work(i, w) => WorkerStep(s, i, w)
    case Produce(p, d) => ProducerStep(s, p, d)
    case Manage(m) => ManagerStep(s, m)
    case Outside(e) => EnvironmentStep(s, e)
  }

  // ---- workers: threadpool_thread ----

  predicate WorkerEnabled(s: Pool, pc: WorkerPc, w: WorkerAct) {
    match w
    case Lock => !s.locked && pc == Starting
    case Relock => !s.locked && pc == Woken
    case ReadFlag => pc == SawEmpty
    case Park => pc == WillWait
    case Fetch => pc == PastLoop
    case BeginWork => pc == Fetched
    case Callback => pc == Busy
    case EndWork => pc == Returning
    case Terminate => pc == Retired || pc == Quit
  }

  function WorkerStep(s: Pool, i: nat, w: WorkerAct): Pool
    requires i < |s.workers| && i < |s.held|
  {
    match w
    case Lock => s.(locked := true, workers := s.workers[i := LoopTest(s)])
    case Relock => AfterWait(s, i)
    case ReadFlag => s.(workers := s.workers[i := if s.shutdown then PastLoop else WillWait])
    case Park => s.(locked := false, workers := s.workers[i := Parked])
    case Fetch => if s.shutdown then s.(locked := false, workers := s.workers[i := Quit]) else TakeTask(s, i)
    case BeginWork => s.(busy := s.busy + 1, workers := s.workers[i := Busy])
    case Callback => s.(workers := s.workers[i := Returning], held := s.held[i := None],
                        finished := s.finished + if s.held[i].Some? then [s.held[i].value] else [])
    case EndWork => s.(busy := s.busy - 1, workers := s.workers[i := Starting])
    case Terminate => s.(workers := s.workers[i := if s.workers[i] == Retired then RetiredDead else QuitDead])
  }

  // Where the test of the wait loop leads a worker that holds the lock.
  function LoopTest(s: Pool): WorkerPc { if s.ring.size == 0 then SawEmpty else PastLoop }

  // A worker back from its wait: with retirements wanted it uses one up, and gives itself
  // up if that leaves enough workers.
  function AfterWait(s: Pool, i: nat): Pool
    requires i < |s.workers|
  {
    if s.waitExit > 0 then
      if s.live > s.minThr then
        s.(waitExit := s.waitExit - 1, live := s.live - 1, workers := s.workers[i := Retired])
      else
        s.(waitExit := s.waitExit - 1, locked := true, workers := s.workers[i := LoopTest(s)])
    else
      s.(locked := true, workers := s.workers[i := LoopTest(s)])
  }

  function TakeTask(s: Pool, i: nat): Pool
    requires i < |s.workers| && i < |s.held|
  {
    s.(locked := false, ring := s.ring.Take(), workers := s.workers[i := Fetched],
       held := if s.ring.Front() != [] then s.held[i := Some(s.ring.Front()[0])] else s.held,
       taken := s.taken + s.ring.Front(),
       producers := WakeProducers(s.producers))
  }

  // ---- producers: threadpool_add ----

  predicate ProducerEnabled(s: Pool, pc: ProducerPc, d: ProducerAct) {
    match d
    case Call(_) => pc == Idle
    case LockQueue => !s.locked && (pc == Calling || pc == Notified)
    case ReadFlagFull => pc == SawFull
    case Sleep => pc == WillSleep
    case Store(wake) => pc == PastCheck && Picks(s.workers, Parked, wake)
  }

  function ProducerStep(s: Pool, p: nat, d: ProducerAct): Pool
    requires p < |s.producers| && p < |s.want|
  {
    match d
    case Call(t) => s.(producers := s.producers[p := Calling], want := s.want[p := t])
    case LockQueue =>
      s.(locked := true, producers := s.producers[p := if s.ring.size == s.ring.Max() then SawFull else PastCheck])
    case ReadFlagFull => s.(producers := s.producers[p := if s.shutdown then PastCheck else WillSleep])
    case Sleep => s.(locked := false, producers := s.producers[p := WaitingRoom])
    case Store(wake) =>
      if s.shutdown then
        s.(locked := false, producers := s.producers[p := Idle], workers := WakeWorkers(s.workers))
      else
        s.(locked := false, producers := s.producers[p := Idle], workers := Wake(s.workers, wake),
           ring := s.ring.Put(s.want[p]), accepted := s.accepted + [s.want[p]])
  }

  // ---- the manager: adjust_thread ----

  predicate WantsGrow(s: Pool, m: ManagerPc)
    requires m.SawBusy?
  {
    m.queueSize >= MIN_WAIT_TASK_NUM && m.liveThen < s.maxThr
  }

  predicate WantsShrink(s: Pool, m: ManagerPc)
    requires m.GrowDone?
  {
    m.busyThen * 2 < m.liveThen && m.liveThen > s.minThr
  }

  predicate ManagerEnabled(s: Pool, pc: ManagerPc, m: ManagerAct) {
    match m
    case ManagerLoop => pc.Top?
    case SnapshotQueue => !s.locked && pc.Asleep?
    case SnapshotBusy => pc.SawQueue?
    case GrowDecision => pc.SawBusy? && (WantsGrow(s, pc) ==> !s.locked)
    case ScanSlot => pc.Scanning?
    case ShrinkDecision => pc.GrowDone? && (WantsShrink(s, pc) ==> !s.locked)
    case SignalIdle(wake) => pc.Signalling? && Picks(s.workers, Parked, wake)
  }

  function ManagerStep(s: Pool, m: ManagerAct): Pool
    requires ManagerEnabled(s, s.manager, m)
  {
    var pc := s.manager;
    match m
    case ManagerLoop => s.(manager := if s.shutdown then Gone else Asleep)
    case SnapshotQueue => s.(manager := SawQueue(s.ring.size, s.live))
    case SnapshotBusy => s.(manager := SawBusy(pc.queueSize, pc.liveThen, s.busy))
    case GrowDecision =>
      if WantsGrow(s, pc) then s.(locked := true, manager := Scanning(0, 0, pc.liveThen, pc.busyThen))
      else s.(manager := GrowDone(pc.liveThen, pc.busyThen))
    case ScanSlot => Scan(s)
    case ShrinkDecision =>
      if WantsShrink(s, pc) then s.(waitExit := DEFAULT_THREAD_VARY, manager := Signalling(0))
      else s.(manager := Top)
    case SignalIdle(wake) =>
      if pc.sent < DEFAULT_THREAD_VARY then s.(workers := Wake(s.workers, wake), manager := Signalling(pc.sent + 1))
      else s.(manager := Top)
  }

  // Does the scan of a grow pass look at slot i?
  predicate ScanGoesOn(s: Pool, i: int, add: int) {
    0 <= i < s.maxThr && i < |s.threads| && add < DEFAULT_THREAD_VARY && s.live < s.maxThr
  }

  // One turn of the scan, or its end.
  function Scan(s: Pool): Pool
    requires s.manager.Scanning?
  {
    var m := s.manager;
    if ScanGoesOn(s, m.i, m.add) then
      if SlotFree(s, m.i) then Start(s, m.i).(manager := m.(i := m.i + 1, add := m.add + 1))
      else s.(manager := m.(i := m.i + 1))
    else s.(locked := false, manager := GrowDone(m.liveThen, m.busyThen))
  }

  // A new worker in slot i.
  function Start(s: Pool, i: nat): Pool
    requires i < |s.threads|
  {
    s.(threads := s.threads[i := Some(|s.workers|)], live := s.live + 1,
       workers := s.workers + [Starting], held := s.held + [None], slotOf := s.slotOf + [i])
  }

  // ---- the environment ----

  predicate EnvironmentEnabled(s: Pool, e: EnvironmentAct) {
    match e
    case SpuriousWorker(i) => At(s.workers, i, Parked)
    case SpuriousProducer(p) => At(s.producers, p, WaitingRoom)
    case SetShutdown => true
    case Broadcast => s.shutdown
  }

  function EnvironmentStep(s: Pool, e: EnvironmentAct): Pool
    requires EnvironmentEnabled(s, e)
  {
    match e
    case SpuriousWorker(i) => s.(workers := s.workers[i := Woken])
    case SpuriousProducer(p) => s.(producers := s.producers[p := Notified])
    case SetShutdown => s.(shutdown := true)
    case Broadcast => s.(workers := WakeWorkers(s.workers))
  }

  // ---- runs ----

  // threadpool_create(min, max, queueMax) with its min workers and its manager started;
  // the caller's duty is 0 <= min <= max.
  ghost predicate Init(s: Pool) {
    && 0 <= s.minThr <= s.maxThr == |s.threads| && s.live == s.minThr
    && s.ring.front == s.ring.rear == s.ring.size == 0
    && s.busy == 0 && s.waitExit == 0 && !s.shutdown && !s.locked && s.manager == Top
    && |s.workers| == |s.held| == |s.slotOf| == s.minThr && |s.want| == |s.producers|
    && (forall i :: 0 <= i < |s.threads| ==> s.threads[i] == if i < s.minThr then Some(i) else None)
    && (forall w :: 0 <= w < s.minThr ==> s.slotOf[w] == w && s.workers[w] == Starting && s.held[w] == None)
    && (forall p :: 0 <= p < |s.producers| ==> s.producers[p] == Idle)
    && s.accepted == s.taken == s.finished == []
  }

  ghost predicate Run(s: Pool, acts: seq<Act>, s': Pool)
    decreases |acts|
  {
    if acts == [] then s == s'
    else Enabled(s, acts[0]) && Run(Apply(s, acts[0]), acts[1..], s')
  }

  ghost predicate Reachable(s: Pool) {
    exists s0, acts :: Init(s0) && Run(s0, acts, s)
  }

  // ---- the invariant, in six parts ----

  function WorkersInside(ws: seq<WorkerPc>): nat { Count(ws, SawEmpty) + Count(ws, WillWait) + Count(ws, PastLoop) }

  function ProducersInside(ps: seq<ProducerPc>): nat { Count(ps, SawFull) + Count(ps, WillSleep) + Count(ps, PastCheck) }

  // How many threads are inside the lock.
  function Inside(s: Pool): nat {
    WorkersInside(s.workers) + ProducersInside(s.producers) + if s.manager.Scanning? then 1 else 0
  }

  ghost predicate LockOk(s: Pool) { Inside(s) == if s.locked then 1 else 0 }

  // What a thread has seen under the lock still holds, and a sleeping producer means a full
  // queue; workers quit only at shutdown.
  ghost predicate QueueOk(s: Pool) {
    && s.ring.Valid()
    && (SawEmpty in s.workers || WillWait in s.workers ==> s.ring.size == 0)
    && (PastLoop in s.workers ==> s.ring.size > 0 || s.shutdown)
    && (SawFull in s.producers || WillSleep in s.producers || WaitingRoom in s.producers ==> s.ring.size == s.ring.Max())
    && (PastCheck in s.producers ==> s.ring.size < s.ring.Max() || s.shutdown)
    && (Quit in s.workers || QuitDead in s.workers ==> s.shutdown)
  }

  function GaveUp(ws: seq<WorkerPc>): nat { Count(ws, Retired) + Count(ws, RetiredDead) }

  function AtWork(ws: seq<WorkerPc>): nat { Count(ws, Busy) + Count(ws, Returning) }

  ghost predicate AccountOk(s: Pool) {
    && 0 <= s.minThr <= s.live <= s.maxThr
    && s.live == |s.workers| - GaveUp(s.workers)
    && s.busy == AtWork(s.workers)
    && 0 <= s.waitExit <= DEFAULT_THREAD_VARY
  }

  ghost predicate ScanOk(s: Pool) {
    s.manager.Scanning? ==> 0 <= s.manager.i <= s.maxThr && 0 <= s.manager.add <= DEFAULT_THREAD_VARY
  }

  // Every live worker is found in its own slot of the table.
  ghost predicate SlotsOk(s: Pool) {
    && |s.threads| == s.maxThr && |s.slotOf| == |s.workers|
    && (forall w :: 0 <= w < |s.workers| && Alive(s.workers, w) ==>
          s.slotOf[w] < |s.threads| && s.threads[s.slotOf[w]] == Some(w))
    && (forall i :: 0 <= i < |s.threads| && s.threads[i].Some? ==>
          s.threads[i].value < |s.workers| && s.slotOf[s.threads[i].value] == i)
  }

  predicate HasTask(pc: WorkerPc) { pc == Fetched || pc == Busy }

  // The stored tasks are the fetched ones followed by the queue, and each fetched task is in
  // one worker's hand or finished.
  ghost predicate HistoryOk(s: Pool) {
    && |s.held| == |s.workers| && |s.want| == |s.producers| && s.ring.Valid()
    && s.accepted == s.taken + s.ring.Queue()
    && (forall i :: 0 <= i < |s.workers| ==> s.held[i].Some? == HasTask(s.workers[i]))
    && (forall t :: multiset(s.taken)[t] == multiset(s.held)[Some(t)] + multiset(s.finished)[t])
  }

  ghost predicate Inv(s: Pool) {
    LockOk(s) && QueueOk(s) && AccountOk(s) && ScanOk(s) && SlotsOk(s) && HistoryOk(s)
  }
}
