// threadpool_t as the source keeps it: fields and two arrays updated in place.  Each method
// is what one critical section of threadpool.c does while it holds the lock; TaskPool says
// when they happen.

module ThreadPoolObject {
  import opened Arith
  import opened Rings
  import opened Options
  import opened Threads
  import opened TaskPool
  import TaskPoolProofs
  import opened TaskPoolRuns

  // A slot that a grow pass may use, where `found` is what pthread_kill says of its thread.
  predicate Free(t: Option<nat>, found: bool) { t.None? || !found }

  // How many of the first n slots a grow pass may use, if it is told answers[i] at slot i.
  function Rank(ts: seq<Option<nat>>, answers: seq<bool>, n: nat): (r: nat)
    requires n <= |ts| && n <= |answers|
    ensures r <= n
  {
    if n == 0 then 0 else Rank(ts, answers, n - 1) + if Free(ts[n - 1], answers[n - 1]) then 1 else 0
  }

  lemma {:induction false} RankGrows(ts: seq<Option<nat>>, answers: seq<bool>, m: nat, n: nat)
    requires m <= n <= |ts| && n <= |answers|
    ensures Rank(ts, answers, m) <= Rank(ts, answers, n)
  {
    if m < n {
      RankGrows(ts, answers, m, n - 1);
    }
  }

  // What a pass that starts `add` threads, numbered from `tid`, leaves in slot i.
  function Refilled(ts: seq<Option<nat>>, answers: seq<bool>, tid: nat, add: int, i: nat): Option<nat>
    requires i < |ts| && i < |answers|
  {
    if Free(ts[i], answers[i]) && Rank(ts, answers, i) < add then Some(tid + Rank(ts, answers, i)) else ts[i]
  }

  class ThreadPool {
    const taskQueue: array<Task>
    const threads: array<Option<nat>>
    const minThrNum: nat
    const maxThrNum: nat
    var queueFront: int
    var queueRear: int
    var queueSize: int
    var liveThrNum: int
    var nextTid: nat  // the identifier of the next thread to be created

    function View(): Wrapped<Task>
      reads this, taskQueue
    {
      Wrapped(taskQueue[..], queueFront, queueRear, queueSize)
    }

    constructor (minThrNum: nat, maxThrNum: nat, queueMaxSize: nat)
      requires minThrNum <= maxThrNum
      ensures View().Valid() && View().Queue() == [] && View().Max() == queueMaxSize
      ensures fresh(taskQueue) && fresh(threads) && threads.Length == maxThrNum
      ensures this.minThrNum == minThrNum && this.maxThrNum == maxThrNum && liveThrNum == minThrNum == nextTid
      ensures forall i :: 0 <= i < maxThrNum ==> threads[i] == if i < minThrNum then Some(i) else None
    {
      this.minThrNum, this.maxThrNum := minThrNum, maxThrNum;
      liveThrNum, nextTid := minThrNum, minThrNum;
      queueSize, queueFront, queueRear := 0, 0, 0;
      taskQueue := new Task[queueMaxSize];
      threads := new Option<nat>[maxThrNum](_ => None);
      new;
      for i := 0 to minThrNum
        modifies threads
        invariant forall j :: 0 <= j < maxThrNum ==> threads[j] == if j < i then Some(j) else None
      {
        threads[i] := Some(i);
      }
    }

    // threadpool_add past its wait loop.
    method Enqueue(task: Task)
      requires View().Valid() && queueSize < taskQueue.Length
      modifies this`queueRear, this`queueSize, taskQueue
      ensures View() == old(View()).Put(task)
      ensures View().Valid() && View().Queue() == old(View().Queue()) + [task]
    {
      WrappedPut(View(), task);
      taskQueue[queueRear] := task;
      queueRear := (queueRear + 1) % taskQueue.Length;
      queueSize := queueSize + 1;
    }

    // threadpool_thread past its wait loop.
    method Dequeue() returns (task: Task)
      requires View().Valid() && queueSize > 0
      modifies this`queueFront, this`queueSize
      ensures View() == old(View()).Take() && old(View()).Front() == [task]
      ensures View().Valid() && old(View().Queue()) == [task] + View().Queue()
    {
      WrappedTake(View());
      task := taskQueue[queueFront];
      queueFront := (queueFront + 1) % taskQueue.Length;
      queueSize := queueSize - 1;
    }

    // The scan of a grow pass.  Threads may terminate while it goes on: answers[i] is what
    // pthread_kill says when slot i is looked at.  It starts min(10, max - live, free slots)
    // threads, in the first free slots, and touches no other.
    method GrowScan(answers: seq<bool>) returns (add: int)
      requires threads.Length == maxThrNum == |answers| && 0 <= liveThrNum <= maxThrNum
      modifies this`liveThrNum, this`nextTid, threads
      ensures var before := old(threads[..]);
        && add == Min(DEFAULT_THREAD_VARY, Min(maxThrNum - old(liveThrNum), Rank(before, answers, maxThrNum)))
        && (forall i :: 0 <= i < maxThrNum ==> threads[i] == Refilled(before, answers, old(nextTid), add, i))
      ensures liveThrNum == old(liveThrNum) + add && nextTid == old(nextTid) + add
    {
      ghost var before, tid := threads[..], nextTid;
      add := 0;
      var i := 0;
      while i < maxThrNum && add < DEFAULT_THREAD_VARY && liveThrNum < maxThrNum
        invariant 0 <= i <= maxThrNum
        invariant add == Rank(before, answers, i) <= DEFAULT_THREAD_VARY
        invariant liveThrNum == old(liveThrNum) + add <= maxThrNum && nextTid == tid + add
        invariant forall j :: i <= j < maxThrNum ==> threads[j] == before[j]
        invariant forall j :: 0 <= j < i ==> threads[j] == Refilled(before, answers, tid, maxThrNum, j)
      {
        if threads[i] == None || !answers[i] {
          threads[i] := Some(nextTid);
          nextTid := nextTid + 1;
          add := add + 1;
          liveThrNum := liveThrNum + 1;
        }
        i := i + 1;
      }
      RankGrows(before, answers, i, maxThrNum);
      forall j | 0 <= j < maxThrNum ensures threads[j] == Refilled(before, answers, tid, add, j) {
        if j < i {
          RankGrows(before, answers, j + 1, i);
        } else {
          RankGrows(before, answers, i, j);
        }
      }
    }
  }

  lemma {:induction false} RankIsSize(ts: seq<Option<nat>>, answers: seq<bool>, n: nat)
    requires n <= |ts| && n <= |answers|
    ensures Rank(ts, answers, n) == |set i: nat | i < n && Free(ts[i], answers[i])|
  {
    if n > 0 {
      RankIsSize(ts, answers, n - 1);
      var rest := set i: nat | i < n - 1 && Free(ts[i], answers[i]);
      var all := set i: nat | i < n && Free(ts[i], answers[i]);
      assert all == if Free(ts[n - 1], answers[n - 1]) then rest + {n - 1} else rest;
    }
  }

  // What pthread_kill says of the threads in the slots at one moment.
  function Found(s: Pool): seq<bool> {
    seq(|s.threads|, i requires 0 <= i < |s.threads| =>
      s.threads[i].Some? && Alive(s.workers, s.threads[i].value))
  }

  // The slots a grow pass could use if nothing else happened meanwhile: max - live, short of
  // the workers between giving up and terminating, and with those that ended at shutdown.
  // They are enough for all the threads the pass may start exactly when the latter make up
  // for the former, or ten are left anyhow.
  lemma GrowPassFindsRoom(s: Pool)
    requires Reachable(s)
    ensures |s.threads| == s.maxThr
    ensures Rank(s.threads, Found(s), s.maxThr)
              == s.maxThr - s.live - Count(s.workers, Retired) + Count(s.workers, QuitDead)
    ensures Min(DEFAULT_THREAD_VARY, Min(s.maxThr - s.live, Rank(s.threads, Found(s), s.maxThr)))
              == Min(DEFAULT_THREAD_VARY, s.maxThr - s.live)
            <==> Count(s.workers, Retired) <= Count(s.workers, QuitDead)
                 || s.maxThr - s.live - Count(s.workers, Retired) + Count(s.workers, QuitDead) >= DEFAULT_THREAD_VARY
  {
    TaskPoolProofs.ReachableInv(s);
    FreeSlotCount(s);
    RankIsSize(s.threads, Found(s), s.maxThr);
    assert FreeSlots(s) == set i: nat | i < |s.threads| && Free(s.threads[i], Found(s)[i]);
  }
}
