// A grow pass of TaskPool among the steps of all other threads.  The manager holds the lock
// throughout, so no worker can retire and no other thread is started; but workers may
// terminate, callbacks may end and shutdown may be set.

module TaskPoolGrow {
  import opened Arith
  import opened Options
  import opened Threads
  import opened TaskPool
  import opened TaskPoolProofs
  import opened TaskPoolRuns
  import opened ThreadPoolObject

  function WorkersAt(ws: seq<WorkerPc>, pc: WorkerPc): set<nat> { set w: nat | w < |ws| && ws[w] == pc }

  lemma {:induction false} CountIsSize(ws: seq<WorkerPc>, pc: WorkerPc)
    ensures |WorkersAt(ws, pc)| == Count(ws, pc)
  {
    if ws != [] {
      var n := |ws| - 1;
      assert ws == ws[..n] + [ws[n]];
      CountIsSize(ws[..n], pc);
      LastWorkerAt(ws, pc);
    }
  }

  lemma LastWorkerAt(ws: seq<WorkerPc>, pc: WorkerPc)
    requires ws != []
    ensures var n := |ws| - 1; WorkersAt(ws, pc) == WorkersAt(ws[..n], pc) + if ws[n] == pc then {n} else {}
  {
  }

  // ---- inside a pass ----

  // What a scan told `answers` has left in slot j.
  function Given(s0: Pool, answers: seq<bool>, j: nat): Option<nat>
    requires j < |s0.threads| && j < |answers|
  {
    if Free(s0.threads[j], answers[j]) then Some(|s0.workers| + Rank(s0.threads, answers, j)) else s0.threads[j]
  }

  // From `s0`, where the pass began, the scan has reached slot `i` and been told `answers`.
  ghost predicate Scanned(s0: Pool, answers: seq<bool>, s: Pool) {
    && s0.manager.Scanning? && s.manager.Scanning? && 0 <= s.manager.i == |answers| <= s.maxThr
    && |s.threads| == |s0.threads| == s.maxThr == s0.maxThr
    && s.manager.add == Rank(s0.threads, answers, |answers|)
    && |s.workers| == |s0.workers| + s.manager.add && s.live == s0.live + s.manager.add
    && (forall j :: 0 <= j < |answers| ==> s.threads[j] == Given(s0, answers, j))
    && (forall j :: |answers| <= j < s.maxThr ==> s.threads[j] == s0.threads[j])
  }

  // Worker v has terminated since the pass began: at shutdown, or because it had given
  // itself up before.
  ghost predicate Gone(s0: Pool, s: Pool, v: nat) {
    && v < |s.workers|
    && (s.workers[v] == QuitDead || (s.workers[v] == RetiredDead && v in WorkersAt(s0.workers, Retired)))
  }

  // The slots already passed that are free now are so because their workers are gone.
  ghost predicate Behind(s0: Pool, s: Pool, n: int) {
    && (forall w :: 0 <= w < |s.workers| && s.workers[w] == Retired ==> w in WorkersAt(s0.workers, Retired))
    && forall j :: 0 <= j < n && j < |s.threads| && SlotFree(s, j) ==>
         s.threads[j].Some? && Gone(s0, s, s.threads[j].value)
  }

  ghost predicate Passing(s0: Pool, answers: seq<bool>, s: Pool) {
    Inv(s) && Scanned(s0, answers, s) && Behind(s0, s, |answers|)
  }

  predicate OnlyScans(a: Act) { a.Manage? ==> a.m == ScanSlot }

  // What the other threads can do to the slots meanwhile: nothing, except that a terminating
  // worker terminates.
  lemma OthersLeaveSlots(s: Pool, a: Act)
    requires Inv(s) && s.manager.Scanning? && Enabled(s, a) && !a.Manage?
    ensures var s' := Apply(s, a);
      && s'.manager == s.manager && s'.threads == s.threads && s'.live == s.live && s'.maxThr == s.maxThr
      && |s'.workers| == |s.workers|
      && forall w :: 0 <= w < |s.workers| ==> Ends(s.workers[w], s'.workers[w])
  {
    match a
    case Work(i, w) => WorkerLeavesSlots(s, i, w);
    case Produce(p, d) => ProducerLeavesSlots(s, p, d);
    case Outside(e) => OutsideLeavesSlots(s, e);
  }

  lemma OutsideLeavesSlots(s: Pool, e: EnvironmentAct)
    requires Enabled(s, Outside(e))
    ensures var s' := EnvironmentStep(s, e);
      && s'.manager == s.manager && s'.threads == s.threads && s'.live == s.live && s'.maxThr == s.maxThr
      && |s'.workers| == |s.workers|
      && forall w :: 0 <= w < |s.workers| ==> Ends(s.workers[w], s'.workers[w])
  {
  }

  lemma ProducerLeavesSlots(s: Pool, p: nat, d: ProducerAct)
    requires LockOk(s) && s.manager.Scanning? && Enabled(s, Produce(p, d))
    ensures d.Call? && ProducerStep(s, p, d) == s.(producers := s.producers[p := Calling], want := s.want[p := d.task])
  {
    assert s.producers[p] in s.producers;
  }

  predicate Ends(before: WorkerPc, after: WorkerPc) {
    && (before == Retired ==> after == Retired || after == RetiredDead)
    && (before == Quit ==> after == Quit || after == QuitDead)
    && (before in {RetiredDead, QuitDead} ==> after == before)
    && (before !in {Retired, Quit, RetiredDead, QuitDead} ==> after !in {Retired, RetiredDead, QuitDead})
  }

  lemma WorkerLeavesSlots(s: Pool, i: nat, w: WorkerAct)
    requires Inv(s) && s.manager.Scanning? && Enabled(s, Work(i, w))
    ensures var s' := WorkerStep(s, i, w);
      && s'.manager == s.manager && s'.threads == s.threads && s'.live == s.live && s'.maxThr == s.maxThr
      && s'.workers == s.workers[i := s'.workers[i]] && Ends(s.workers[i], s'.workers[i])
  {
  }

  lemma ScannedByOthers(s0: Pool, answers: seq<bool>, s: Pool, s': Pool)
    requires Scanned(s0, answers, s)
    requires s'.manager == s.manager && s'.threads == s.threads && s'.live == s.live && s'.maxThr == s.maxThr
    requires |s'.workers| == |s.workers|
    ensures Scanned(s0, answers, s')
  {
  }

  lemma BehindByOthers(s0: Pool, s: Pool, s': Pool, n: int)
    requires SlotsOk(s) && Behind(s0, s, n)
    requires s'.threads == s.threads && |s'.workers| == |s.workers|
    requires forall w :: 0 <= w < |s.workers| ==> Ends(s.workers[w], s'.workers[w])
    ensures Behind(s0, s', n)
  {
    forall j | 0 <= j < n && j < |s.threads| && SlotFree(s', j)
      ensures s.threads[j].Some? && Gone(s0, s', s.threads[j].value)
    {
      if s.threads[j].Some? {
        var v := s.threads[j].value;
        assert Ends(s.workers[v], s'.workers[v]);
      }
    }
  }

  lemma OthersKeepPassing(s0: Pool, answers: seq<bool>, s: Pool, a: Act)
    requires Passing(s0, answers, s) && Enabled(s, a) && !a.Manage?
    ensures Passing(s0, answers, Apply(s, a))
  {
    InvStep(s, a);
    OthersLeaveSlots(s, a);
    ScannedByOthers(s0, answers, s, Apply(s, a));
    BehindByOthers(s0, s, Apply(s, a), |answers|);
  }

  // One turn of the scan, which is told whether the thread in its slot is found.
  lemma TurnKeepsScanned(s0: Pool, answers: seq<bool>, s: Pool)
    requires Scanned(s0, answers, s) && ScanGoesOn(s, s.manager.i, s.manager.add)
    ensures Scanned(s0, answers + [Found(s)[s.manager.i]], Scan(s))
  {
    var i: nat := s.manager.i;
    var told := answers + [Found(s)[i]];
    forall j: nat | j <= i
      ensures Rank(s0.threads, told, j) == Rank(s0.threads, answers, j)
    {
      assert told[..j] == answers[..j];
      RanksAgree(s0.threads, answers, told, j);
    }
    assert SlotFree(s, i) <==> Free(s0.threads[i], told[i]);
    forall j: nat | j <= i
      ensures Scan(s).threads[j] == Given(s0, told, j)
    {
      assert j < i ==> Given(s0, told, j) == Given(s0, answers, j);
    }
  }

  lemma TurnStaysBehind(s0: Pool, s: Pool)
    requires SlotsOk(s) && s.manager.Scanning? && Behind(s0, s, s.manager.i)
    requires ScanGoesOn(s, s.manager.i, s.manager.add)
    ensures Behind(s0, Scan(s), s.manager.i + 1)
  {
    var i: nat, s' := s.manager.i, Scan(s);
    forall j | 0 <= j <= i && SlotFree(s', j)
      ensures s'.threads[j].Some? && Gone(s0, s', s'.threads[j].value)
    {
      assert j < i ==> SlotFree(s, j);
    }
  }

  lemma TurnKeepsPassing(s0: Pool, answers: seq<bool>, s: Pool)
    requires Passing(s0, answers, s) && ScanGoesOn(s, s.manager.i, s.manager.add)
    ensures Passing(s0, answers + [Found(s)[s.manager.i]], Scan(s))
  {
    InvStep(s, Manage(ScanSlot));
    TurnKeepsScanned(s0, answers, s);
    TurnStaysBehind(s0, s);
  }

  lemma {:induction false} RanksAgree(ts: seq<Option<nat>>, a: seq<bool>, b: seq<bool>, n: nat)
    requires n <= |ts| && n <= |a| && n <= |b| && a[..n] == b[..n]
    ensures Rank(ts, a, n) == Rank(ts, b, n)
  {
    if n > 0 {
      assert a[n - 1] == a[..n][n - 1] && b[n - 1] == b[..n][n - 1];
      assert a[..n - 1] == a[..n][..n - 1] && b[..n - 1] == b[..n][..n - 1];
      RanksAgree(ts, a, b, n - 1);
    }
  }

  // ---- the end of a pass ----

  lemma {:induction false} Occupants(s: Pool, slots: set<nat>)
    requires SlotsOk(s) && forall j :: j in slots ==> j < |s.threads| && s.threads[j].Some?
    ensures |set j | j in slots :: s.threads[j].value| == |slots|
  {
    if slots != {} {
      var j :| j in slots;
      Occupants(s, slots - {j});
      var rest := set k | k in slots - {j} :: s.threads[k].value;
      assert (set k | k in slots :: s.threads[k].value) == rest + {s.threads[j].value};
    }
  }

  lemma SubsetSize(a: set<nat>, b: set<nat>)
    requires a <= b
    ensures |a| <= |b| && |b - a| == |b| - |a|
  {
    assert b == a + (b - a);
  }

  // A scan that has looked at every slot leaves no more threads unstarted than workers were
  // on their way out when it began.
  lemma AllSlotsPassed(s0: Pool, s: Pool)
    requires Inv(s) && Behind(s0, s, s.maxThr)
    ensures s.maxThr - s.live <= Count(s0.workers, Retired)
  {
    var gone, left := WorkersAt(s0.workers, Retired), WorkersAt(s.workers, Retired);
    var quit := WorkersAt(s.workers, QuitDead);
    SlotsAreCounted(s);
    CountIsSize(s0.workers, Retired);
    CountIsSize(s.workers, Retired);
    CountIsSize(s.workers, QuitDead);
    forall j | j in FreeSlots(s) ensures s.threads[j].Some? && s.threads[j].value in quit + (gone - left) {
    }
    Occupants(s, FreeSlots(s));
    SubsetSize(set j | j in FreeSlots(s) :: s.threads[j].value, quit + (gone - left));
    SubsetSize(left, gone);
  }

  // What a pass from `s0` has done by the time that `s` is reached.
  ghost predicate Passed(s0: Pool, answers: seq<bool>, s: Pool) {
    && |answers| == |s0.threads| == |s.threads| == s0.maxThr
    && var add := |s.workers| - |s0.workers|;
       && add == Min(DEFAULT_THREAD_VARY, Min(s0.maxThr - s0.live, Rank(s0.threads, answers, s0.maxThr)))
       && Min(DEFAULT_THREAD_VARY, s0.maxThr - s0.live - Count(s0.workers, Retired)) <= add
       && forall j :: 0 <= j < s0.maxThr ==> s.threads[j] == Refilled(s0.threads, answers, |s0.workers|, add, j)
  }

  lemma PassEnds(s0: Pool, answers: seq<bool>, s: Pool) returns (all: seq<bool>)
    requires Passing(s0, answers, s) && !ScanGoesOn(s, s.manager.i, s.manager.add)
    ensures Passed(s0, all, Scan(s))
  {
    var i: nat := |answers|;
    all := answers + seq(s.maxThr - i, _ => true);
    if i == s.maxThr {
      AllSlotsPassed(s0, s);
    }
    assert all[..i] == answers;
    SlotsWhenPassed(s0, answers, s, all);
    PassedWhen(s0, all, s, Scan(s));
  }

  lemma PassedWhen(s0: Pool, all: seq<bool>, s: Pool, s': Pool)
    requires |all| == |s0.threads| == |s.threads| == s0.maxThr == s.maxThr
    requires s'.threads == s.threads && s'.workers == s.workers
    requires s.manager.Scanning? && |s.workers| == |s0.workers| + s.manager.add && s.live == s0.live + s.manager.add
    requires s.live <= s.maxThr && 0 <= s.manager.add <= Min(DEFAULT_THREAD_VARY, Rank(s0.threads, all, s.maxThr))
    requires s.live == s.maxThr || s.manager.add == DEFAULT_THREAD_VARY
      || (s.manager.add == Rank(s0.threads, all, s.maxThr) && s.maxThr - s.live <= Count(s0.workers, Retired))
    requires forall j :: 0 <= j < s.maxThr ==> s.threads[j] == Refilled(s0.threads, all, |s0.workers|, s.manager.add, j)
    ensures Passed(s0, all, s')
  {
  }

  lemma SlotsWhenPassed(s0: Pool, answers: seq<bool>, s: Pool, all: seq<bool>)
    requires Scanned(s0, answers, s) && |all| == s.maxThr && all[..|answers|] == answers
    ensures s.manager.add <= Rank(s0.threads, all, s.maxThr)
    ensures |answers| == s.maxThr ==> s.manager.add == Rank(s0.threads, all, s.maxThr)
    ensures forall j :: 0 <= j < s.maxThr ==> s.threads[j] == Refilled(s0.threads, all, |s0.workers|, s.manager.add, j)
  {
    var i: nat := |answers|;
    forall j: nat | j <= i
      ensures Rank(s0.threads, all, j) == Rank(s0.threads, answers, j)
    {
      assert all[..j] == all[..i][..j];
      RanksAgree(s0.threads, all, answers, j);
    }
    RankGrows(s0.threads, all, i, s.maxThr);
    forall j | 0 <= j < s.maxThr
      ensures s.threads[j] == Refilled(s0.threads, all, |s0.workers|, s.manager.add, j)
    {
      if j < i {
        assert s.threads[j] == Given(s0, answers, j) && all[j] == all[..i][j];
        RankGrows(s0.threads, all, j + 1, i);
      } else {
        RankGrows(s0.threads, all, i, j);
      }
    }
  }

  // Only a scan changes the slots.
  lemma OthersKeepSlots(s: Pool, a: Act)
    requires Enabled(s, a) && !a.Manage?
    ensures Apply(s, a).threads == s.threads && |Apply(s, a).workers| == |s.workers|
    ensures Apply(s, a).manager == s.manager
  {
    match a
    case Work(i, w) => WorkersKeepSlots(s, i, w);
    case Produce(p, d) => ProducersKeepSlots(s, p, d);
    case Outside(e) =>
  }

  lemma WorkersKeepSlots(s: Pool, i: nat, w: WorkerAct)
    requires Enabled(s, Work(i, w))
    ensures var s' := WorkerStep(s, i, w);
      s'.threads == s.threads && |s'.workers| == |s.workers| && s'.manager == s.manager
  {
  }

  lemma ProducersKeepSlots(s: Pool, p: nat, d: ProducerAct)
    requires Enabled(s, Produce(p, d))
    ensures var s' := ProducerStep(s, p, d);
      s'.threads == s.threads && |s'.workers| == |s.workers| && s'.manager == s.manager
  {
  }

  lemma {:induction false} AfterPass(s: Pool, acts: seq<Act>, s': Pool)
    requires Run(s, acts, s') && s.manager.GrowDone? && forall k :: 0 <= k < |acts| ==> OnlyScans(acts[k])
    ensures s'.threads == s.threads && |s'.workers| == |s.workers|
    decreases |acts|
  {
    if acts != [] {
      assert OnlyScans(acts[0]);
      OthersKeepSlots(s, acts[0]);
      assert forall k :: 0 <= k < |acts[1..]| ==> acts[1..][k] == acts[k + 1];
      AfterPass(Apply(s, acts[0]), acts[1..], s');
    }
  }

  lemma PassStep(s0: Pool, answers: seq<bool>, s: Pool, a: Act) returns (told: seq<bool>)
    requires Passing(s0, answers, s) && Enabled(s, a) && OnlyScans(a)
    ensures var s1 := Apply(s, a);
      if s1.manager.Scanning? then Passing(s0, told, s1) else s1.manager.GrowDone? && Passed(s0, told, s1)
  {
    told := answers;
    if !a.Manage? {
      OthersKeepPassing(s0, answers, s, a);
    } else if ScanGoesOn(s, s.manager.i, s.manager.add) {
      TurnKeepsPassing(s0, answers, s);
      told := answers + [Found(s)[s.manager.i]];
    } else {
      told := PassEnds(s0, answers, s);
    }
  }

  lemma PassedStays(s0: Pool, answers: seq<bool>, s: Pool, s': Pool)
    requires Passed(s0, answers, s) && s'.threads == s.threads && |s'.workers| == |s.workers|
    ensures Passed(s0, answers, s')
  {
  }

  lemma {:induction false} PassGoesOn(s0: Pool, answers: seq<bool>, s: Pool, acts: seq<Act>, s': Pool) returns (all: seq<bool>)
    requires Passing(s0, answers, s) && Run(s, acts, s') && s'.manager.GrowDone?
    requires forall k :: 0 <= k < |acts| ==> OnlyScans(acts[k])
    ensures Passed(s0, all, s')
    decreases |acts|
  {
    assert acts != [];
    var s1 := Apply(s, acts[0]);
    var told := PassStep(s0, answers, s, acts[0]);
    assert forall k :: 0 <= k < |acts[1..]| ==> acts[1..][k] == acts[k + 1];
    if s1.manager.Scanning? {
      all := PassGoesOn(s0, told, s1, acts[1..], s');
    } else {
      all := told;
      AfterPass(s1, acts[1..], s');
      PassedStays(s0, told, s1, s');
    }
  }

  // A whole grow pass, from taking the lock to its end, in any interleaving with all other
  // threads: it is the scan of ThreadPoolObject for what it was told at each slot, and it
  // starts min(10, max - live) threads, less at most one for each worker that had given
  // itself up but not terminated when the pass began - so exactly that many if there is none.
  lemma GrowPassStarts(s0: Pool, acts: seq<Act>, s: Pool) returns (answers: seq<bool>)
    requires Reachable(s0) && s0.manager.Scanning? && s0.manager.i == 0 == s0.manager.add
    requires Run(s0, acts, s) && s.manager.GrowDone? && forall k :: 0 <= k < |acts| ==> OnlyScans(acts[k])
    ensures Passed(s0, answers, s)
    ensures var add := |s.workers| - |s0.workers|;
      && Min(DEFAULT_THREAD_VARY, s0.maxThr - s0.live - Count(s0.workers, Retired)) <= add
      && add <= Min(DEFAULT_THREAD_VARY, s0.maxThr - s0.live)
      && (Retired !in s0.workers ==> add == Min(DEFAULT_THREAD_VARY, s0.maxThr - s0.live))
  {
    ReachableInv(s0);
    answers := PassGoesOn(s0, [], s0, acts, s);
  }
}
