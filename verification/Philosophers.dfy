// The dining philosophers of 7_philosopher.c around a table of any size: a philosopher waits
// for the fork on the right, only tries the one on the left, and puts down what it has.  The
// last one sits the other way round.

module Philosophers {
  datatype Pc =
    | Thinking   // about to lock the right fork
    | HasRight   // about to try the left fork
    | Eating     // about to unlock the left fork
    | Leaving    // about to unlock the right fork

  const FREE := -1

  // owner[f] is the philosopher that holds fork f, or FREE.
  datatype Table = Table(owner: seq<int>, pcs: seq<Pc>)

  function Right(n: nat, i: nat): (f: nat)
    requires 2 <= n && i < n
    ensures f < n
  {
    if i < n - 1 then i else 0
  }

  function Left(n: nat, i: nat): (f: nat)
    requires 2 <= n && i < n
    ensures f < n && f != Right(n, i)
  {
    if i < n - 1 then i + 1 else n - 1
  }

  predicate WellFormed(s: Table) { 2 <= |s.pcs| == |s.owner| }

  // Only the lock on the right blocks.
  predicate Enabled(s: Table, i: nat)
    requires WellFormed(s) && i < |s.pcs|
  {
    s.pcs[i].Thinking? ==> s.owner[Right(|s.pcs|, i)] == FREE
  }

  // Philosopher i's next call on a mutex.
  function Step(s: Table, i: nat): (t: Table)
    requires WellFormed(s) && i < |s.pcs| && Enabled(s, i)
    ensures WellFormed(t) && |t.pcs| == |s.pcs|
  {
    var r, l := Right(|s.pcs|, i), Left(|s.pcs|, i);
    match s.pcs[i]
    case Thinking => Table(s.owner[r := i], s.pcs[i := HasRight])
    case HasRight =>
      if s.owner[l] == FREE then Table(s.owner[l := i], s.pcs[i := Eating]) else s.(pcs := s.pcs[i := Leaving])
    case Eating => Table(s.owner[l := FREE], s.pcs[i := Leaving])
    case Leaving => Table(s.owner[r := FREE], s.pcs[i := Thinking])
  }

  function Start(n: nat): (s: Table)
    requires 2 <= n
    ensures WellFormed(s) && |s.pcs| == n
  {
    Table(seq(n, _ => FREE), seq(n, _ => Thinking))
  }

  predicate Run(s: Table, who: seq<nat>)
    requires WellFormed(s)
    decreases |who|
  {
    who == [] || (who[0] < |s.pcs| && Enabled(s, who[0]) && Run(Step(s, who[0]), who[1..]))
  }

  function Final(s: Table, who: seq<nat>): (t: Table)
    requires WellFormed(s) && Run(s, who)
    ensures WellFormed(t) && |t.pcs| == |s.pcs|
    decreases |who|
  {
    if who == [] then s else Final(Step(s, who[0]), who[1..])
  }

  ghost predicate Reachable(s: Table) {
    2 <= |s.pcs| && exists who :: Run(Start(|s.pcs|), who) && s == Final(Start(|s.pcs|), who)
  }

  // ---- who holds what ----

  predicate Holds(s: Table, i: nat, f: nat)
    requires WellFormed(s) && i < |s.pcs|
  {
    || (!s.pcs[i].Thinking? && f == Right(|s.pcs|, i))
    || (s.pcs[i].Eating? && f == Left(|s.pcs|, i))
  }

  predicate Inv(s: Table) {
    && WellFormed(s)
    && (forall f :: 0 <= f < |s.owner| ==> FREE <= s.owner[f] < |s.pcs|)
    && (forall i, f :: 0 <= i < |s.pcs| && 0 <= f < |s.owner| ==> (s.owner[f] == i <==> Holds(s, i, f)))
  }

  lemma InvStep(s: Table, i: nat)
    requires Inv(s) && i < |s.pcs| && Enabled(s, i)
    ensures Inv(Step(s, i))
  {
    var t := Step(s, i);
    forall j, f | 0 <= j < |t.pcs| && 0 <= f < |t.owner|
      ensures t.owner[f] == j <==> Holds(t, j, f)
    {
      assert s.owner[f] == j <==> Holds(s, j, f);
      assert s.owner[f] == i <==> Holds(s, i, f);
    }
  }

  lemma {:induction false} RunInv(s: Table, who: seq<nat>)
    requires Inv(s) && Run(s, who)
    ensures Inv(Final(s, who))
    decreases |who|
  {
    if who != [] {
      InvStep(s, who[0]);
      RunInv(Step(s, who[0]), who[1..]);
    }
  }

  lemma ReachableInv(s: Table)
    requires Reachable(s)
    ensures Inv(s)
  {
    var who :| Run(Start(|s.pcs|), who) && s == Final(Start(|s.pcs|), who);
    RunInv(Start(|s.pcs|), who);
  }

  // ---- eating ----

  // Philosophers who share a fork never eat together; neighbours do share one.
  lemma NeighboursNeverEatTogether(s: Table, i: nat)
    requires Reachable(s) && i < |s.pcs|
    ensures s.pcs[i].Eating? ==> !s.pcs[if i < |s.pcs| - 1 then i + 1 else 0].Eating?
  {
    ReachableInv(s);
    var n := |s.pcs|;
    var j := if i < n - 1 then i + 1 else 0;
    var f := if i < n - 1 then i + 1 else 0;
    assert s.pcs[i].Eating? ==> Holds(s, i, f);
    assert s.pcs[j].Eating? ==> Holds(s, j, f);
  }

  function Eaters(s: Table, k: nat): nat
    requires k <= |s.pcs|
  {
    if k == 0 then 0 else Eaters(s, k - 1) + if s.pcs[k - 1].Eating? then 1 else 0
  }

  lemma {:induction false} EatersHoldTwoForksEach(s: Table, k: nat) returns (forks: set<nat>)
    requires Inv(s) && k <= |s.pcs|
    ensures |forks| == 2 * Eaters(s, k)
    ensures forall f :: f in forks ==> f < |s.owner| && 0 <= s.owner[f] < k
  {
    if k == 0 {
      forks := {};
    } else {
      forks := EatersHoldTwoForksEach(s, k - 1);
      if s.pcs[k - 1].Eating? {
        var r, l := Right(|s.pcs|, k - 1), Left(|s.pcs|, k - 1);
        assert Holds(s, k - 1, r) && Holds(s, k - 1, l);
        assert r !in forks && l !in forks;
        forks := forks + {r, l};
      }
    }
  }

  lemma {:induction false} SizeOfRange(forks: set<nat>, n: nat)
    requires forall f :: f in forks ==> f < n
    ensures |forks| <= n
  {
    if n > 0 {
      SizeOfRange(forks - {n - 1}, n - 1);
    }
  }

  lemma AtMostHalfEat(s: Table)
    requires Reachable(s)
    ensures 2 * Eaters(s, |s.pcs|) <= |s.pcs|
  {
    ReachableInv(s);
    var forks := EatersHoldTwoForksEach(s, |s.pcs|);
    SizeOfRange(forks, |s.pcs|);
  }

  // ---- waiting ----

  // Who waits for a fork holds none, and the one it waits for can take a step.
  lemma WaitersHoldNothing(s: Table, i: nat)
    requires Reachable(s) && i < |s.pcs| && !Enabled(s, i)
    ensures i !in s.owner
    ensures var j := s.owner[Right(|s.pcs|, i)]; 0 <= j < |s.pcs| && j != i && Enabled(s, j)
  {
    ReachableInv(s);
    var r := Right(|s.pcs|, i);
    assert Holds(s, s.owner[r], r);
    forall f | 0 <= f < |s.owner|
      ensures s.owner[f] != i
    {
      assert !Holds(s, i, f);
    }
  }

  lemma NoDeadlock(s: Table)
    requires Reachable(s)
    ensures exists i: nat :: i < |s.pcs| && Enabled(s, i)
  {
    if !Enabled(s, 0) {
      WaitersHoldNothing(s, 0);
    }
  }

  // How many steps of its own a philosopher is away from holding no fork.
  function StepsToGo(pc: Pc): nat {
    match pc
    case Thinking => 0
    case HasRight => 3
    case Eating => 2
    case Leaving => 1
  }

  function StepsOf(who: seq<nat>, j: nat): nat {
    if who == [] then 0 else (if who[0] == j then 1 else 0) + StepsOf(who[1..], j)
  }

  // The owner of a fork puts it down within three steps of its own, whatever the others do.
  lemma {:induction false} ForksAreFreed(s: Table, who: seq<nat>, f: nat, j: nat)
    requires Inv(s) && f < |s.owner| && j < |s.pcs| && s.owner[f] == j
    requires Run(s, who) && StepsOf(who, j) >= StepsToGo(s.pcs[j])
    ensures StepsToGo(s.pcs[j]) <= 3
    ensures exists k: nat :: k <= |who| && Run(s, who[..k]) && Final(s, who[..k]).owner[f] != j
    decreases |who|
  {
    assert Holds(s, j, f);
    var t, rest := Step(s, who[0]), who[1..];
    InvStep(s, who[0]);
    if t.owner[f] != j {
      OneStep(s, who[0]);
      assert who[..1] == [who[0]];
      assert Final(s, who[..1]).owner[f] != j;
    } else {
      assert Holds(t, j, f);
      ForksAreFreed(t, rest, f, j);
      var k: nat :| k <= |rest| && Run(t, rest[..k]) && Final(t, rest[..k]).owner[f] != j;
      assert who[..k + 1][0] == who[0] && who[..k + 1][1..] == rest[..k];
      assert Final(s, who[..k + 1]).owner[f] != j;
    }
  }

  lemma OneStep(s: Table, i: nat)
    requires WellFormed(s) && i < |s.pcs| && Enabled(s, i)
    ensures Run(s, [i]) && Final(s, [i]) == Step(s, i)
  {
    assert [i][1..] == [];
  }

  // ---- somebody eats ----

  // The last fork lies to nobody's right, so whoever holds it is eating: the two philosophers
  // who try it either get it or the other one of them eats.
  lemma LastForkFeedsSomebody(s: Table, i: nat)
    requires Reachable(s) && |s.pcs| - 2 <= i < |s.pcs| && s.pcs[i].HasRight?
    ensures Enabled(s, i)
    ensures Step(s, i).pcs[i].Eating? || s.pcs[2 * |s.pcs| - 3 - i].Eating?
  {
    ReachableInv(s);
    TryOfLastFork(s, i);
  }

  lemma TryOfLastFork(s: Table, i: nat)
    requires Inv(s) && |s.pcs| - 2 <= i < |s.pcs| && s.pcs[i].HasRight?
    ensures Step(s, i).pcs[i].Eating? || s.pcs[2 * |s.pcs| - 3 - i].Eating?
  {
    var n := |s.pcs|;
    assert Left(n, i) == n - 1;
    var j := s.owner[n - 1];
    if j != FREE {
      assert Holds(s, j, n - 1);
    }
  }

  ghost predicate SomebodyEats(s: Table) { exists i :: 0 <= i < |s.pcs| && s.pcs[i].Eating? }

  // How many steps of its own a philosopher is away from having tried the left fork.
  function StepsToTry(pc: Pc): nat {
    match pc
    case Leaving => 3
    case Thinking => 2
    case HasRight => 1
    case Eating => 0
  }

  // In every run in which one of the last two philosophers takes three steps of its own,
  // somebody eats: the table never lives on failed tries alone.
  lemma {:induction false} SomebodyGetsToEat(s: Table, who: seq<nat>, i: nat)
    requires Inv(s) && |s.pcs| - 2 <= i < |s.pcs| && Run(s, who)
    requires StepsOf(who, i) >= StepsToTry(s.pcs[i])
    ensures exists k: nat :: k <= |who| && Run(s, who[..k]) && SomebodyEats(Final(s, who[..k]))
    decreases |who|
  {
    if SomebodyEats(s) {
      assert who[..0] == [] && Final(s, who[..0]) == s;
    } else {
      var t, rest := Step(s, who[0]), who[1..];
      InvStep(s, who[0]);
      if who[0] == i && s.pcs[i].HasRight? {
        TryOfLastFork(s, i);
        OneStep(s, i);
        assert who[..1] == [i];
        assert t.pcs[i].Eating?;
      } else {
        SomebodyGetsToEat(t, rest, i);
        var k: nat :| k <= |rest| && Run(t, rest[..k]) && SomebodyEats(Final(t, rest[..k]));
        assert who[..k + 1][0] == who[0] && who[..k + 1][1..] == rest[..k];
        assert SomebodyEats(Final(s, who[..k + 1]));
      }
    }
  }
}
