// What the two pool models share: optional values, and threads counted, weighed and
// signalled by program counter.

module Options {
  datatype Option<T> = None | Some(value: T)
}

module Threads {
  // The number of threads at one program point.
  function Count<T(==)>(pcs: seq<T>, pc: T): nat { multiset(pcs)[pc] }

  predicate At<T(==)>(pcs: seq<T>, i: nat, pc: T) { i < |pcs| && pcs[i] == pc }

  // A signal may release any parked thread, and releases one if there is one.
  predicate Picks<T(==)>(pcs: seq<T>, parked: T, wake: nat) {
    parked in pcs ==> At(pcs, wake, parked)
  }

  lemma PickParked<T>(pcs: seq<T>, parked: T) returns (wake: nat)
    ensures Picks(pcs, parked, wake)
  {
    wake := 0;
    if parked in pcs {
      wake :| wake < |pcs| && pcs[wake] == parked;
    }
  }

  // Progress is measured by weighing the threads by program counter.
  function Sum<T>(xs: seq<T>, weight: T -> nat): nat {
    if xs == [] then 0 else weight(xs[0]) + Sum(xs[1..], weight)
  }

  lemma {:induction false} SumUpdate<T>(xs: seq<T>, i: nat, x: T, weight: T -> nat)
    requires i < |xs|
    ensures Sum(xs[i := x], weight) == Sum(xs, weight) - weight(xs[i]) + weight(x)
  {
    if i == 0 {
      assert xs[0 := x][1..] == xs[1..];
    } else {
      assert xs[i := x][1..] == xs[1..][i - 1 := x];
      SumUpdate(xs[1..], i - 1, x, weight);
    }
  }

  lemma {:induction false} SumBound<T>(xs: seq<T>, weight: T -> nat, max: nat)
    requires forall x: T :: weight(x) <= max
    ensures Sum(xs, weight) <= max * |xs|
  {
    if xs != [] {
      SumBound(xs[1..], weight, max);
    }
  }
}
