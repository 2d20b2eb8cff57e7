// When the manager of TaskPool starts and retires workers, in whole turns of its loop among
// the steps of all other threads, and what its requests and its signals can do.

module TaskPoolManager {
  import opened Threads
  import opened TaskPool
  import opened TaskPoolRuns

  predicate NoManager(acts: seq<Act>) { forall k :: 0 <= k < |acts| ==> !acts[k].Manage? }

  lemma OthersLeaveManager(s: Pool, a: Act)
    requires Enabled(s, a) && !a.Manage?
    ensures Apply(s, a).manager == s.manager && Apply(s, a).minThr == s.minThr && Apply(s, a).maxThr == s.maxThr
  {
    match a
    case Work(i, w) =>
    case Produce(p, d) =>
    case Outside(e) =>
  }

  lemma {:induction false} ManagerWaits(s: Pool, acts: seq<Act>, s': Pool)
    requires Run(s, acts, s') && NoManager(acts)
    ensures s'.manager == s.manager && s'.minThr == s.minThr && s'.maxThr == s.maxThr
    decreases |acts|
  {
    if acts != [] {
      OthersLeaveManager(s, acts[0]);
      assert forall k :: 0 <= k < |acts[1..]| ==> acts[1..][k] == acts[k + 1];
      ManagerWaits(Apply(s, acts[0]), acts[1..], s');
    }
  }

  // The manager looks at the queue and the live threads in `s1`, at the busy ones in `s2`, and
  // decides in `s3`; other threads run in between.
  ghost predicate Looks(s1: Pool, a1: seq<Act>, s2: Pool, a2: seq<Act>, s3: Pool) {
    && Enabled(s1, Manage(SnapshotQueue)) && Run(Apply(s1, Manage(SnapshotQueue)), a1, s2) && NoManager(a1)
    && Enabled(s2, Manage(SnapshotBusy)) && Run(Apply(s2, Manage(SnapshotBusy)), a2, s3) && NoManager(a2)
  }

  lemma LooksAt(s1: Pool, a1: seq<Act>, s2: Pool, a2: seq<Act>, s3: Pool)
    requires Looks(s1, a1, s2, a2, s3)
    ensures s3.manager == SawBusy(s1.ring.size, s1.live, s2.busy) && s3.minThr == s1.minThr && s3.maxThr == s1.maxThr
  {
    ManagerWaits(Apply(s1, Manage(SnapshotQueue)), a1, s2);
    ManagerWaits(Apply(s2, Manage(SnapshotBusy)), a2, s3);
  }

  // It starts a grow pass if and only if it saw at least ten tasks queued and fewer live
  // threads than the maximum.
  lemma GrowsExactlyWhen(s1: Pool, a1: seq<Act>, s2: Pool, a2: seq<Act>, s3: Pool)
    requires Looks(s1, a1, s2, a2, s3) && Enabled(s3, Manage(GrowDecision))
    ensures Apply(s3, Manage(GrowDecision)).manager.Scanning? <==> s1.ring.size >= 10 && s1.live < s1.maxThr
    ensures !Apply(s3, Manage(GrowDecision)).manager.Scanning? ==> Apply(s3, Manage(GrowDecision)).manager.GrowDone?
  {
    LooksAt(s1, a1, s2, a2, s3);
  }

  predicate OnlyScans(acts: seq<Act>) { forall k :: 0 <= k < |acts| ==> acts[k].Manage? ==> acts[k].m == ScanSlot }

  predicate Remembers(m: ManagerPc, l: int, b: int) {
    (m.Scanning? || m.GrowDone?) && m.liveThen == l && m.busyThen == b
  }

  lemma {:induction false} ScanRemembers(s: Pool, acts: seq<Act>, s': Pool, l: int, b: int)
    requires Run(s, acts, s') && OnlyScans(acts) && Remembers(s.manager, l, b)
    ensures Remembers(s'.manager, l, b) && s'.minThr == s.minThr
    decreases |acts|
  {
    if acts != [] {
      if !acts[0].Manage? {
        OthersLeaveManager(s, acts[0]);
      } else {
        assert acts[0] == Manage(ScanSlot);
      }
      assert forall k :: 0 <= k < |acts[1..]| ==> acts[1..][k] == acts[k + 1];
      ScanRemembers(Apply(s, acts[0]), acts[1..], s', l, b);
    }
  }

  // After that decision and its grow pass, if any, in `s4`: it asks for ten retirements if and
  // only if fewer than half of the live threads that it saw were busy when it looked, and
  // there were more of them than the minimum.
  lemma ShrinksExactlyWhen(s1: Pool, a1: seq<Act>, s2: Pool, a2: seq<Act>, s3: Pool, a3: seq<Act>, s4: Pool)
    requires Looks(s1, a1, s2, a2, s3) && Enabled(s3, Manage(GrowDecision))
    requires Run(Apply(s3, Manage(GrowDecision)), a3, s4) && OnlyScans(a3) && Enabled(s4, Manage(ShrinkDecision))
    ensures var s5 := Apply(s4, Manage(ShrinkDecision));
      if s2.busy * 2 < s1.live && s1.live > s1.minThr then s5.waitExit == 10 && s5.manager == Signalling(0)
      else s5.waitExit == s4.waitExit && s5.manager == Top
  {
    LooksAt(s1, a1, s2, a2, s3);
    ScanRemembers(Apply(s3, Manage(GrowDecision)), a3, s4, s1.live, s2.busy);
  }

  // ---- ten retirements for each request ----

  // The times that the manager made its second decision.
  function Decisions(acts: seq<Act>): nat {
    if acts == [] then 0 else (if acts[0] == Manage(ShrinkDecision) then 1 else 0) + Decisions(acts[1..])
  }

  lemma WorkerUsesRequest(s: Pool, i: nat, w: WorkerAct)
    requires Enabled(s, Work(i, w)) && 0 <= s.waitExit
    ensures var s' := WorkerStep(s, i, w);
      && 0 <= s'.waitExit && GaveUp(s'.workers) + s'.waitExit <= GaveUp(s.workers) + s.waitExit
      && (w == Relock ==> s'.waitExit == if s.waitExit > 0 then s.waitExit - 1 else 0)
  {
    GaveUpWorker(s, i, w);
  }

  lemma StepUsesRequest(s: Pool, a: Act)
    requires Enabled(s, a) && 0 <= s.waitExit
    ensures var s' := Apply(s, a);
      && 0 <= s'.waitExit
      && GaveUp(s'.workers) + s'.waitExit <= GaveUp(s.workers) + s.waitExit + 10 * Decisions([a])
  {
    assert [a][1..] == [];
    GaveUpGrows(s, a);
    match a
    case Work(i, w) => WorkerUsesRequest(s, i, w);
    case Produce(p, d) =>
    case Manage(m) =>
    case Outside(e) =>
  }

  // In every run no more workers give themselves up than ten for each turn of the manager.
  lemma {:induction false} RetirementsAreRequested(s: Pool, acts: seq<Act>, s': Pool)
    requires Run(s, acts, s') && 0 <= s.waitExit
    ensures 0 <= s'.waitExit && GaveUp(s'.workers) + s'.waitExit <= GaveUp(s.workers) + s.waitExit + 10 * Decisions(acts)
    decreases |acts|
  {
    if acts != [] {
      StepUsesRequest(s, acts[0]);
      assert [acts[0]][1..] == [];
      RetirementsAreRequested(Apply(s, acts[0]), acts[1..], s');
    }
  }

  // ---- signals ----

  function Signals(acts: seq<Act>): nat {
    if acts == [] then 0 else (if acts[0].Manage? && acts[0].m.SignalIdle? then 1 else 0) + Signals(acts[1..])
  }

  predicate OnlySignals(acts: seq<Act>) { forall k :: 0 <= k < |acts| ==> acts[k].Manage? ==> acts[k].m.SignalIdle? }

  // A request comes with ten signals, and an eleventh turn of the loop that ends it.
  lemma {:induction false} TenSignals(s: Pool, acts: seq<Act>, s': Pool)
    requires Run(s, acts, s') && OnlySignals(acts) && s'.manager == Top
    requires s.manager == Top || (s.manager.Signalling? && 0 <= s.manager.sent <= 10)
    ensures Signals(acts) == if s.manager == Top then 0 else 11 - s.manager.sent
    decreases |acts|
  {
    if acts != [] {
      if !acts[0].Manage? {
        OthersLeaveManager(s, acts[0]);
      }
      assert forall k :: 0 <= k < |acts[1..]| ==> acts[1..][k] == acts[k + 1];
      TenSignals(Apply(s, acts[0]), acts[1..], s');
    }
  }

  // A signal, of the manager or of a store, wakes one waiting worker if there is one.
  lemma SignalWakesOne(s: Pool, a: Act)
    requires Enabled(s, a)
    requires (a.Produce? && a.d.Store? && !s.shutdown) || (a.Manage? && a.m.SignalIdle? && s.manager.sent < 10)
    ensures var n := if Parked in s.workers then 1 else 0;
      && Count(Apply(s, a).workers, Parked) == Count(s.workers, Parked) - n
      && Count(Apply(s, a).workers, Woken) == Count(s.workers, Woken) + n
  {
    var wake := if a.Produce? then a.d.wake else a.m.wake;
    WakesOne(s.workers, wake);
    if a.Produce? {
      assert Apply(s, a).workers == Wake(s.workers, wake);
    } else {
      assert Apply(s, a).workers == Wake(s.workers, wake);
    }
  }

  lemma WakesOne(ws: seq<WorkerPc>, wake: nat)
    requires Picks(ws, Parked, wake)
    ensures var n := if Parked in ws then 1 else 0;
      && Count(Wake(ws, wake), Parked) == Count(ws, Parked) - n && Count(Wake(ws, wake), Woken) == Count(ws, Woken) + n
  {
  }

  // ---- the end of the manager ----

  function Turns(acts: seq<Act>): nat { if acts == [] then 0 else (if acts[0].Manage? then 1 else 0) + Turns(acts[1..]) }

  function AtLeast0(n: int): nat { if n < 0 then 0 else n }

  // How far the manager is from its end once shutdown is set.
  function StepsToEnd(m: ManagerPc, maxThr: int): nat {
    match m
    case Gone => 0
    case Top => 1
    case Signalling(sent) => 2 + AtLeast0(10 - sent)
    case GrowDone(_, _) => 13
    case Scanning(i, _, _, _) => 14 + AtLeast0(maxThr - i)
    case SawBusy(_, _, _) => 15 + AtLeast0(maxThr)
    case SawQueue(_, _) => 16 + AtLeast0(maxThr)
    case Asleep => 17 + AtLeast0(maxThr)
  }

  lemma ManagerNearsEnd(s: Pool, m: ManagerAct)
    requires Enabled(s, Manage(m)) && s.shutdown
    ensures var s' := ManagerStep(s, m);
      s'.shutdown && s'.maxThr == s.maxThr && StepsToEnd(s'.manager, s.maxThr) < StepsToEnd(s.manager, s.maxThr)
  {
  }

  // With shutdown set the manager takes a bounded number of steps, among those of all others,
  // and only the lock can keep it from its end.
  lemma {:induction false} ManagerEnds(s: Pool, acts: seq<Act>, s': Pool)
    requires Run(s, acts, s') && s.shutdown
    ensures Turns(acts) <= StepsToEnd(s.manager, s.maxThr)
    ensures (forall m :: !Enabled(s', Manage(m))) && !s'.locked ==> s'.manager == Gone
    decreases |acts|
  {
    if acts != [] {
      GaveUpGrows(s, acts[0]);
      if acts[0].Manage? {
        ManagerNearsEnd(s, acts[0].m);
      } else {
        OthersLeaveManager(s, acts[0]);
      }
      ManagerEnds(Apply(s, acts[0]), acts[1..], s');
    } else if (forall m :: !Enabled(s', Manage(m))) && !s'.locked && s'.manager != Gone {
      var m := ManagerCanMove(s');
      assert false;
    }
  }

  lemma ManagerCanMove(s: Pool) returns (m: ManagerAct)
    requires !s.locked && s.manager != Gone
    ensures Enabled(s, Manage(m))
  {
    match s.manager
    case Top => m := ManagerLoop;
    case Asleep => m := SnapshotQueue;
    case SawQueue(_, _) => m := SnapshotBusy;
    case SawBusy(_, _, _) => m := GrowDecision;
    case Scanning(_, _, _, _) => m := ScanSlot;
    case GrowDone(_, _) => m := ShrinkDecision;
    case Signalling(_) =>
      var wake := PickParked(s.workers, Parked);
      m := SignalIdle(wake);
  }
}
