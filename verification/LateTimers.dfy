/**
 * What a broken heap leads to.
 *
 * A cancellation may leave an entry below a greater parent.  As long as it is
 * there, putting off other timers is enough to make some timer late: each time
 * the timer at the root is put off, it sinks past the stuck entry at most one
 * level, and takes that entry's parent up along with it.  With the heap in order
 * nothing but a cancellation can make a timer late.  So the order of the heap is
 * exactly what keeps every continuation without cancellations on time.
 */
module LateTimers {
  import opened Basics
  import opened PriorityQueue
  import opened Timers

  // ---------- An entry stuck below a greater one ----------

  /** `i` is `k` or below it in the tree. */
  predicate Under(k: nat, i: nat) {
    i == k || (i > k && Under(k, Parent(i)))
  }

  /** The entry at `c` is smaller than its parent, and the one its parent would sink to. */
  predicate Stuck(h: Heap, c: nat) {
    0 < c < |h| && SmallestOf(h, Parent(c)) == c
  }

  lemma BrokenIsStuck(h: Heap)
    requires !HeapOrder(h)
    ensures exists c: nat :: Stuck(h, c)
  {
    var i :| 0 < i < |h| && !Above(h, i);
    var c := SmallestOf(h, Parent(i));
    assert i == 2 * Parent(i) + 1 || i == 2 * Parent(i) + 2;
    assert c != Parent(i) && Parent(c) == Parent(i);
    assert Stuck(h, c);
  }

  /** What sinks from `i` changes nothing outside the tree below `i`. */
  lemma {:induction false} SinksBelow(h: Heap, i: nat, x: nat)
    requires i < |h| && x < |h| && !Under(i, x)
    ensures BubbleDown(h, i)[x] == h[x]
    decreases |h| - i
  {
    var j := SmallestOf(h, i);
    if j != i {
      if Under(j, x) {
        UnderParent(i, j, x);
      }
      SinksBelow(Swap(h, i, j), j, x);
    }
  }

  lemma {:induction false} UnderParent(i: nat, j: nat, x: nat)
    requires j > 0 && Parent(j) == i && Under(j, x)
    ensures Under(i, x)
    decreases x
  {
    if x != j {
      UnderParent(i, j, Parent(x));
    }
  }


  // ---------- A sinking entry lifts the stuck one ----------

  /** Nothing is greater than the entry at `i`. */
  ghost predicate Big(h: Heap, i: nat)
    requires i < |h|
  {
    forall x :: 0 <= x < |h| ==> h[x].priority <= h[i].priority
  }

  /** `g` is `h` at `k` and below it, but for a greater entry at `k`. */
  lemma SameChoice(h: Heap, g: Heap, k: nat)
    requires k < |h| == |g| && SmallestOf(h, k) != k && g[k].priority >= h[k].priority
    requires forall x :: 2 * k < x <= 2 * k + 2 && x < |h| ==> g[x] == h[x]
    ensures SmallestOf(g, k) == SmallestOf(h, k)
  {
  }

  /** Arriving at the stuck entry's parent, it goes on past the stuck entry, whose parent is above it again. */
  lemma PassesStuck(h: Heap, k: nat, c: nat)
    requires 0 < k < c < |h| && Parent(c) == k && SmallestOf(h, k) == c
    requires h[c].priority < h[Parent(k)].priority
    requires forall x :: 0 < x < |h| && Parent(x) == Parent(k) && x != k ==> h[Parent(k)].priority <= h[x].priority
    ensures Stuck(BubbleDown(h, k), k) && BubbleDown(h, k)[k] == h[c]
  {
    var h', r := Swap(h, k, c), BubbleDown(h, k);
    assert r == BubbleDown(h', c);
    forall x | 0 <= x < c
      ensures r[x] == h'[x]
    {
      SinksBelow(h', c, x);
    }
    var p := Parent(k);
    assert k == 2 * p + 1 || k == 2 * p + 2;
    assert 2 * p + 2 < c;
    assert forall x :: 2 * p < x <= 2 * p + 2 && x != k ==> Parent(x) == p && r[x] == h[x];
  }

  lemma {:induction false} SinkKeepsStuck(h: Heap, i: nat, c: nat) returns (c': nat)
    requires i < |h| && Big(h, i) && Stuck(h, c) && !Under(Parent(c), i)
    ensures Stuck(BubbleDown(h, i), c') && BubbleDown(h, i)[c'] == h[c]
    decreases |h| - i
  {
    var j, k := SmallestOf(h, i), Parent(c);
    var h' := Swap(h, i, j);
    if j == i {
      c' := c;
    } else if j == k {
      SameChoice(h, h', k);
      PassesStuck(h', k, c);
      c' := k;
    } else {
      assert forall x :: 2 * k < x <= 2 * k + 2 ==> Parent(x) == k && Under(k, x);
      SameChoice(h, h', k);
      c' := SinkKeepsStuck(h', j, c);
    }
  }

  /** Putting off the timer at the root leaves the entry stuck. */
  lemma RaiseKeepsStuck(h: Heap, c: nat, priority: int) returns (c': nat)
    requires Stuck(h, c) && h[0].priority <= h[c].priority
    requires forall x :: 0 <= x < |h| ==> h[x].priority <= priority
    ensures Stuck(ChangePriority(h, 0, priority), c') && ChangePriority(h, 0, priority)[c'] == h[c]
  {
    var g, k := h[0 := Entry(priority, h[0].value)], Parent(c);
    SameChoice(h, g, k);
    c' := SinkKeepsStuck(g, 0, c);
  }

  // ---------- Runs ----------

  /** More than every deadline in the heap. */
  function Later(h: Heap): (m: nat)
    ensures forall x :: 0 <= x < |h| ==> h[x].priority < m
  {
    if h == [] then 0
    else
      var m := Later(h[..|h| - 1]);
      if h[|h| - 1].priority < m then m else h[|h| - 1].priority + 1
  }

  /** Timers are set or put off, none is cancelled. */
  predicate OnlySets(es: seq<Event>) {
    forall i :: 0 <= i < |es| ==> es[i].Update? && es[i].timeout >= 0
  }

  predicate NoCancel(es: seq<Event>) {
    forall i :: 0 <= i < |es| ==> es[i].Update? ==> es[i].timeout >= 0
  }

  /** The deadlines not after `a`. */
  ghost function NotAfter(m: map<int, int>, a: int): set<int> {
    set p | p in m && m[p] <= a
  }

  lemma PutOffOne(es: seq<Event>, c: nat) returns (e: Event, c': nat)
    requires Possible(es) && Stuck(Run(INIT, es).heap, c)
    requires Run(INIT, es).heap[0].priority <= Run(INIT, es).heap[c].priority
    ensures e.Update? && e.timeout >= 0 && Possible(es + [e])
    ensures Stuck(Run(INIT, es + [e]).heap, c') && Run(INIT, es + [e]).heap[c'] == Run(INIT, es).heap[c]
    ensures var a := Run(INIT, es).heap[c].priority;
            |NotAfter(Deadlines(es + [e]), a)| < |NotAfter(Deadlines(es), a)|
  {
    var h, m := Run(INIT, es).heap, Deadlines(es);
    var a, p := h[c].priority, h[0].value;
    EveryRun(es);
    e := Update(p, Later(h));
    assert OffsetOf(h, p) == Some(0);
    c' := RaiseKeepsStuck(h, c, Later(h));
    RunSnoc(es, e);
    PossibleSnoc(es, e);
    assert (es + [e])[..|es|] == es;
    FewerNotAfter(m, p, Later(h), a);
  }

  lemma FewerNotAfter(m: map<int, int>, p: int, later: int, a: int)
    requires p in m && m[p] <= a < later
    ensures |NotAfter(m[p := later], a)| < |NotAfter(m, a)|
  {
    assert NotAfter(m[p := later], a) == NotAfter(m, a) - {p};
    assert p in NotAfter(m, a);
  }

  /** With an entry stuck, putting off timers makes one late. */
  lemma {:induction false} PutOff(es: seq<Event>, c: nat) returns (cs: seq<Event>)
    requires Possible(es) && Stuck(Run(INIT, es).heap, c)
    ensures OnlySets(cs) && Possible(es + cs) && PostsLate(es + cs)
    decreases |NotAfter(Deadlines(es), Run(INIT, es).heap[c].priority)|
  {
    var h := Run(INIT, es).heap;
    if h[0].priority > h[c].priority {
      cs := [];
      assert es + cs == es;
      LateNow(es, c);
    } else {
      var e, c' := PutOffOne(es, c);
      var rest := PutOff(es + [e], c');
      cs := [e] + rest;
      PutOffFirst(es, e, rest);
    }
  }

  lemma PutOffFirst(es: seq<Event>, e: Event, rest: seq<Event>)
    requires e.Update? && e.timeout >= 0 && OnlySets(rest) && Possible(es + [e] + rest) && PostsLate(es + [e] + rest)
    ensures var cs := [e] + rest; OnlySets(cs) && Possible(es + cs) && PostsLate(es + cs)
  {
    Regrouped(es, e, rest);
  }

  lemma LateNow(es: seq<Event>, c: nat)
    requires Possible(es) && 0 < c < |Run(INIT, es).heap|
    requires Run(INIT, es).heap[0].priority > Run(INIT, es).heap[c].priority
    ensures PostsLate(es)
  {
    var h := Run(INIT, es).heap;
    EveryRun(es);
    RootExpires(es);
    assert LateAt(es, h[0].priority, h[c].value);
  }

  lemma Regrouped(es: seq<Event>, e: Event, rest: seq<Event>)
    ensures es + ([e] + rest) == es + [e] + rest
  {
  }

  lemma {:induction false} StaysOrdered(es: seq<Event>, cs: seq<Event>)
    requires HeapOrder(Run(INIT, es).heap) && NoCancel(cs)
    ensures HeapOrder(Run(INIT, es + cs).heap)
    decreases |cs|
  {
    if cs == [] {
      assert es + cs == es;
    } else {
      var n := |cs| - 1;
      StaysOrdered(es, cs[..n]);
      StepOrders(Run(INIT, es + cs[..n]), cs[n]);
      LastApart(es, cs);
      RunSnoc(es + cs[..n], cs[n]);
    }
  }

  lemma LastApart(es: seq<Event>, cs: seq<Event>)
    requires cs != []
    ensures es + cs == es + cs[..|cs| - 1] + [cs[|cs| - 1]]
  {
  }

  lemma OrderedIsOnTime(es: seq<Event>)
    requires HeapOrder(Run(INIT, es).heap)
    ensures !PostsLate(es)
  {
    EveryRun(es);
    var h, m := Run(INIT, es).heap, Deadlines(es);
    forall now: nat, q: int
      ensures !LateAt(es, now, q)
    {
      if h != [] {
        RootIsEarliest(h, m);
      }
    }
  }

  /** No continuation without cancellations posts a timer while an earlier one is pending. */
  ghost predicate OnTimeFrom(es: seq<Event>) {
    forall cs: seq<Event> :: NoCancel(cs) && Possible(es + cs) ==> !PostsLate(es + cs)
  }

  /** After every possible run: the heap is in order exactly when all that follows without cancellations is on time. */
  lemma OrderedIffOnTime(es: seq<Event>)
    requires Possible(es)
    ensures HeapOrder(Run(INIT, es).heap) <==> OnTimeFrom(es)
  {
    if HeapOrder(Run(INIT, es).heap) {
      forall cs: seq<Event> | NoCancel(cs) && Possible(es + cs)
        ensures !PostsLate(es + cs)
      {
        StaysOrdered(es, cs);
        OrderedIsOnTime(es + cs);
      }
    } else {
      BrokenIsStuck(Run(INIT, es).heap);
      var c: nat :| Stuck(Run(INIT, es).heap, c);
      var cs := PutOff(es, c);
      assert NoCancel(cs);
    }
  }

  /** So a cancellation that is not safe can always be made to delay some timer. */
  lemma UnsafeCancelDelays(es: seq<Event>, e: Event)
    requires Possible(es) && HeapOrder(Run(INIT, es).heap) && e.Update?
    ensures SafeCancel(Run(INIT, es), e) <==> OnTimeFrom(es + [e])
  {
    StepOrders(Run(INIT, es), e);
    RunSnoc(es, e);
    PossibleSnoc(es, e);
    OrderedIffOnTime(es + [e]);
  }
}
