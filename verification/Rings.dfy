// The two bounded task queues of the thread pools, and the one FIFO queue both refine.
//
// Indices and sizes are `int`, as in the source.  The operations are total: what they
// do outside the ranges of `Valid` is an artefact of the model that the pools' invariants
// rule out (an array write out of bounds is modelled as lost).

module Arith {
  function Min(a: int, b: int): int { if a <= b then a else b }

  lemma MulAtLeast(d: int, m: int)
    requires 1 <= d && 0 < m
    ensures m <= d * m
  {
    assert d * m == m + (d - 1) * m;
  }

  lemma DivModUnique(a: int, m: int, q: int, r: int)
    requires 0 < m && a == q * m + r && 0 <= r < m
    ensures a % m == r && a / m == q
  {
    var d := a / m - q;
    assert d * m == r - a % m;
    if d >= 1 {
      MulAtLeast(d, m);
      assert false;
    }
    if d <= -1 {
      MulAtLeast(-d, m);
      assert false;
    }
  }

  // Reducing one summand first does not change the sum's remainder.
  lemma ModAdd(a: int, b: int, m: int)
    requires 0 < m
    ensures (a % m + b) % m == (a + b) % m
  {
    var q, r := (a % m + b) / m, (a % m + b) % m;
    assert a + b == (a / m) * m + a % m + b == (a / m + q) * m + r;
    DivModUnique(a + b, m, a / m + q, r);
  }

  // The position k places after i on a ring of m slots: (i + k) % m without the division.
  function Place(i: int, k: int, m: int): (p: int) {
    if i + k < m then i + k else i + k - m
  }

  lemma PlaceIsMod(i: int, k: int, m: int)
    requires 0 <= i < m && 0 <= k <= m
    ensures Place(i, k, m) == (i + k) % m && 0 <= Place(i, k, m) < m
  {
    DivModUnique(i + k, m, if i + k < m then 0 else 1, Place(i, k, m));
  }
}

module Rings {
  import opened Arith

  // ---- threadpool.c: queue_front, queue_rear and queue_size, wrapped at queue_max_size ----

  datatype Wrapped<T> = Wrapped(slots: seq<T>, front: int, rear: int, size: int) {
    function Max(): nat { |slots| }

    ghost predicate Valid() {
      && 0 <= size <= Max()
      && (if Max() == 0 then front == 0 && rear == 0
          else 0 <= front < Max() && rear == Place(front, size, Max()))
    }

    // The queued tasks, oldest first.
    ghost function Queue(): seq<T>
      requires Valid()
    {
      seq(size, k requires 0 <= k < size => slots[Place(front, k, Max())])
    }

    function Put(t: T): Wrapped<T> {
      Wrapped(if 0 <= rear < Max() then slots[rear := t] else slots,
              front, Next(rear, Max()), size + 1)
    }

    // The task at the front, and the ring without it; there is no task when the front
    // index is outside the array.
    function Front(): (t: seq<T>) { if 0 <= front < Max() then [slots[front]] else [] }

    function Take(): Wrapped<T> {
      Wrapped(slots, Next(front, Max()), rear, size - 1)
    }
  }

  function Next(i: int, max: nat): int { if max == 0 then 0 else (i + 1) % max }

  lemma WrappedPut<T>(r: Wrapped<T>, t: T)
    requires r.Valid() && r.size < r.Max()
    ensures 0 <= r.rear < r.Max()
    ensures r.Put(t).Valid() && r.Put(t).Queue() == r.Queue() + [t]
  {
    PlaceIsMod(r.rear, 1, r.Max());
  }

  lemma WrappedTake<T>(r: Wrapped<T>)
    requires r.Valid() && r.size > 0
    ensures r.Front() == [r.Queue()[0]]
    ensures r.Take().Valid() && r.Queue() == r.Front() + r.Take().Queue()
  {
    PlaceIsMod(r.front, 1, r.Max());
  }

  // ---- threadpoolsimple.c: free-running job_push and job_pop beside job_num ----

  datatype Counters<T> = Counters(slots: seq<T>, push: int, pop: int, num: int) {
    function Max(): nat { |slots| }

    ghost predicate Valid() {
      && 0 <= num <= Max()
      && 0 <= pop && push - pop == num
    }

    ghost function Queue(): seq<T>
      requires Valid()
    {
      seq(num, k requires 0 <= k < num => slots[(pop + k) % Max()])
    }

    function Put(t: T): Counters<T> {
      Counters(if Max() == 0 then slots else slots[push % Max() := t], push + 1, pop, num + 1)
    }

    function Front(): (t: seq<T>) { if Max() == 0 then [] else [slots[pop % Max()]] }

    function Take(): Counters<T> {
      Counters(slots, push, pop + 1, num - 1)
    }

    // The wrapped ring with the same contents.
    function Wrap(): Wrapped<T> {
      if Max() == 0 then Wrapped(slots, 0, 0, num)
      else Wrapped(slots, pop % Max(), push % Max(), num)
    }
  }

  // Free-running counters are the wrapped ring seen through `% max`: same queue, and both
  // operations commute with the view.
  lemma CountersRefineWrapped<T>(c: Counters<T>, t: T)
    requires c.Valid()
    ensures c.Wrap().Valid() && c.Wrap().Queue() == c.Queue()
    ensures c.num < c.Max() ==> c.Put(t).Valid() && c.Put(t).Wrap() == c.Wrap().Put(t)
    ensures c.num > 0 ==> c.Take().Valid() && c.Front() == c.Wrap().Front() && c.Take().Wrap() == c.Wrap().Take()
  {
    var m := c.Max();
    if m > 0 {
      CountersIndex(c.pop, c.num, m);
      ModAdd(c.push, 1, m);
      ModAdd(c.pop, 1, m);
      forall k | 0 <= k < c.num ensures c.Wrap().Queue()[k] == c.Queue()[k] {
        CountersIndex(c.pop, k, m);
      }
    }
  }

  lemma CountersIndex(pop: int, k: int, m: int)
    requires 0 < m && 0 <= k <= m
    ensures (pop + k) % m == Place(pop % m, k, m)
  {
    ModAdd(pop, k, m);
    PlaceIsMod(pop % m, k, m);
  }

  lemma CountersPut<T>(c: Counters<T>, t: T)
    requires c.Valid() && c.num < c.Max()
    ensures c.Put(t).Valid() && c.Put(t).Queue() == c.Queue() + [t]
  {
    CountersRefineWrapped(c, t);
    CountersRefineWrapped(c.Put(t), t);
    WrappedPut(c.Wrap(), t);
  }

  lemma CountersTake<T>(c: Counters<T>)
    requires c.Valid() && c.num > 0
    ensures c.Front() == [c.Queue()[0]]
    ensures c.Take().Valid() && c.Queue() == c.Front() + c.Take().Queue()
  {
    CountersRefineWrapped(c, c.slots[0]);
    CountersRefineWrapped(c.Take(), c.slots[0]);
    WrappedTake(c.Wrap());
  }
}
