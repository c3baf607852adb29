/**
 * The timer half of the Linux event loop: the timeout queue, the timer
 * descriptor it keeps armed, and what is posted when that descriptor expires.
 *
 * The reference is a finite map from port to deadline.  Over every run of timer
 * messages and expirations the heap holds exactly that map, the descriptor is
 * armed for the heap's root, and no port is posted before its deadline.  That
 * each expiration serves an earliest deadline holds for the runs whose
 * cancellations leave the heap in order, and a run from the empty queue shows
 * that it fails without that.
 */
module Timers {
  import opened Basics
  import opened PriorityQueue

  /** Absolute expiry of the timer descriptor; the zero value disarms it. */
  datatype TimeSpec = TimeSpec(sec: int, nsec: int)

  const DISARMED := TimeSpec(0, 0)

  function ToTimeSpec(millis: nat): TimeSpec {
    TimeSpec(millis / 1000, millis % 1000 * 1000000)
  }

  /** The setting is well formed, loses nothing of the deadline, and disarms for deadline 0 only. */
  lemma TimeSpecFaithful(millis: nat)
    ensures 0 <= ToTimeSpec(millis).nsec < 1000000000
    ensures ToTimeSpec(millis).sec * 1000 + ToTimeSpec(millis).nsec / 1000000 == millis
    ensures ToTimeSpec(millis) == DISARMED <==> millis == 0
  {
    assert millis % 1000 * 1000000 / 1000000 == millis % 1000;
    assert millis / 1000 * 1000 + millis % 1000 == millis;
  }

  // ---------- One step of the loop ----------

  datatype Timer = Timer(heap: Heap, armed: TimeSpec)

  const INIT := Timer([], DISARMED)

  /** What the loop reacts to: a timer message, or the descriptor reported readable at time `now`. */
  datatype Event = Update(port: int, timeout: int) | Expire(now: nat)

  function OffsetOf(h: Heap, port: int): (r: Option<nat>)
    ensures r.Some? ==> r.value < |h| && h[r.value].value == port
    ensures r.None? ==> forall i :: 0 <= i < |h| ==> h[i].value != port
  {
    if h == [] then None
    else if h[|h| - 1].value == port then Some(|h| - 1)
    else OffsetOf(h[..|h| - 1], port)
  }

  function UpdateHeap(h: Heap, port: int, timeout: int): Heap {
    match OffsetOf(h, port)
    case None => if timeout < 0 then h else Insert(h, Entry(timeout, port))
    case Some(i) => if timeout < 0 then RemoveAt(h, i) else ChangePriority(h, i, timeout)
  }

  function ArmFor(h: Heap): TimeSpec {
    if h == [] || h[0].priority < 0 then DISARMED else ToTimeSpec(h[0].priority)
  }

  function Step(t: Timer, e: Event): Timer {
    var h := match e
      case Update(port, timeout) => UpdateHeap(t.heap, port, timeout)
      case Expire(_) => if t.heap == [] then [] else RemoveAt(t.heap, 0);
    Timer(h, ArmFor(h))
  }

  /** The port posted in a step. */
  function Posted(t: Timer, e: Event): Option<int> {
    if e.Expire? && t.heap != [] then Some(t.heap[0].value) else None
  }

  /** The kernel reports the descriptor only once it is armed and its time has come. */
  predicate Enabled(t: Timer, e: Event) {
    e.Expire? ==> t.armed != DISARMED && t.armed.sec * 1000 + t.armed.nsec / 1000000 <= e.now
  }

  function Run(t: Timer, es: seq<Event>): Timer
    decreases |es|
  {
    if es == [] then t else Step(Run(t, es[..|es| - 1]), es[|es| - 1])
  }

  /** The ports posted in a step, none or one. */
  function PostedIn(t: Timer, e: Event): seq<int> {
    match Posted(t, e)
    case None => []
    case Some(p) => [p]
  }

  /** The ports posted in a run, oldest first. */
  function PostsOf(t: Timer, es: seq<Event>): seq<int>
    decreases |es|
  {
    if es == [] then [] else PostsOf(t, es[..|es| - 1]) + PostedIn(Run(t, es[..|es| - 1]), es[|es| - 1])
  }

  /** Every event of the run was possible when it came. */
  ghost predicate Possible(es: seq<Event>) {
    forall k :: 0 <= k < |es| ==> Enabled(Run(INIT, es[..k]), es[k])
  }

  // ---------- The reference ----------

  /** The deadlines pending after a run, by port. */
  function Deadlines(es: seq<Event>): map<int, int>
    decreases |es|
  {
    if es == [] then map[]
    else
      var before, e := es[..|es| - 1], es[|es| - 1];
      match e
      case Update(port, timeout) =>
        if timeout < 0 then Deadlines(before) - {port} else Deadlines(before)[port := timeout]
      case Expire(_) =>
        var posted := Posted(Run(INIT, before), e);
        if posted.Some? then Deadlines(before) - {posted.value} else Deadlines(before)
  }

  /** The heap holds each pending deadline once and nothing else. */
  ghost predicate Holds(h: Heap, m: map<int, int>) {
    && Unique(h)
    && (forall i :: 0 <= i < |h| ==> h[i].value in m && m[h[i].value] == h[i].priority)
    && (forall p :: p in m ==> Entry(m[p], p) in h)
  }

  /** The same, said of the entries' multiset. */
  lemma HoldsByEntries(h: Heap, g: Heap, m: map<int, int>)
    requires Holds(h, m) && multiset(g) == multiset(h)
    ensures Holds(g, m)
  {
    forall i | 0 <= i < |g|
      ensures g[i] in h
    {
      assert g[i] in multiset(g);
    }
    forall e | e in h
      ensures e in g
    {
      assert e in multiset(h);
    }
    forall i, j | 0 <= i < j < |g|
      ensures g[i].value != g[j].value
    {
      UniqueCounts(h, g[i]);
      if g[i] == g[j] {
        CountsTwice(g, i, j);
      }
    }
  }

  lemma CountsTwice(g: Heap, i: nat, j: nat)
    requires i < j < |g| && g[i] == g[j]
    ensures multiset(g)[g[i]] >= 2
  {
    assert g == g[..j] + [g[j]] + g[j + 1..];
    assert g[..j][i] == g[i];
    assert g[i] in multiset(g[..j]);
  }

  lemma UniqueCounts(h: Heap, e: Entry)
    requires Unique(h)
    ensures multiset(h)[e] <= 1
  {
    if e in h {
      var i :| 0 <= i < |h| && h[i] == e;
      assert h == h[..i] + [h[i]] + h[i + 1..];
      assert e !in h[..i] && e !in h[i + 1..];
      assert e !in multiset(h[..i]) && e !in multiset(h[i + 1..]);
    } else {
      assert e !in multiset(h);
    }
  }

  lemma HoldsEmpty(h: Heap, m: map<int, int>)
    requires Holds(h, m)
    ensures h == [] <==> m == map[]
  {
    assert forall p :: p in m ==> Entry(m[p], p) in h;
    if h == [] {
      assert forall p :: p !in m;
      assert m == map[];
    } else {
      assert h[0].value in m;
    }
  }

  lemma HoldsInserted(h: Heap, m: map<int, int>, e: Entry)
    requires Holds(h, m) && e.value !in m
    ensures Holds(Insert(h, e), m[e.value := e.priority])
  {
    var g, m' := h + [e], m[e.value := e.priority];
    InsertAdds(h, e);
    assert multiset(g) == multiset(Insert(h, e));
    forall p | p in m'
      ensures Entry(m'[p], p) in g
    {
      assert p == e.value ==> g[|h|] == e;
    }
    HoldsByEntries(g, Insert(h, e), m');
  }

  /** The heap's array with one entry cut out. */
  function Without(h: Heap, i: nat): (g: Heap)
    requires i < |h|
    ensures |g| == |h| - 1
    ensures forall k :: 0 <= k < i ==> g[k] == h[k]
    ensures forall k :: i < k < |h| ==> g[k - 1] == h[k]
    ensures forall k :: 0 <= k < |g| ==> g[k] == h[if k < i then k else k + 1]
  {
    h[..i] + h[i + 1..]
  }

  lemma WithoutCounts(h: Heap, i: nat)
    requires i < |h|
    ensures multiset(Without(h, i)) == multiset(h) - multiset{h[i]}
  {
    assert h == h[..i] + [h[i]] + h[i + 1..];
  }

  lemma HoldsWithout(h: Heap, m: map<int, int>, i: nat)
    requires Holds(h, m) && i < |h|
    ensures Holds(Without(h, i), m - {h[i].value})
  {
    var g, m' := Without(h, i), m - {h[i].value};
    forall p | p in m'
      ensures Entry(m'[p], p) in g
    {
      var k :| 0 <= k < |h| && h[k] == Entry(m[p], p);
      assert g[if k < i then k else k - 1] == h[k];
    }
  }

  lemma HoldsRemoved(h: Heap, m: map<int, int>, i: nat)
    requires Holds(h, m) && i < |h|
    ensures Holds(RemoveAt(h, i), m - {h[i].value})
  {
    RemoveAtRemoves(h, i);
    WithoutCounts(h, i);
    HoldsWithout(h, m, i);
    HoldsByEntries(Without(h, i), RemoveAt(h, i), m - {h[i].value});
  }

  lemma HoldsReplaced(h: Heap, m: map<int, int>, i: nat, priority: int)
    requires Holds(h, m) && i < |h|
    ensures Holds(h[i := Entry(priority, h[i].value)], m[h[i].value := priority])
  {
    var e := Entry(priority, h[i].value);
    var g, m' := h[i := e], m[h[i].value := priority];
    forall p | p in m'
      ensures Entry(m'[p], p) in g
    {
      if p == h[i].value {
        assert g[i] == e;
      } else {
        var k :| 0 <= k < |h| && h[k] == Entry(m[p], p);
        assert g[k] == h[k];
      }
    }
  }

  lemma HoldsChanged(h: Heap, m: map<int, int>, i: nat, priority: int)
    requires Holds(h, m) && i < |h|
    ensures Holds(ChangePriority(h, i, priority), m[h[i].value := priority])
  {
    var e := Entry(priority, h[i].value);
    ChangePriorityChanges(h, i, priority);
    ReplaceCounts(h, i, e);
    HoldsReplaced(h, m, i, priority);
    HoldsByEntries(h[i := e], ChangePriority(h, i, priority), m[h[i].value := priority]);
  }

  lemma HoldsUpdated(h: Heap, m: map<int, int>, port: int, timeout: int)
    requires Holds(h, m)
    ensures Holds(UpdateHeap(h, port, timeout), if timeout < 0 then m - {port} else m[port := timeout])
  {
    match OffsetOf(h, port)
    case None =>
      assert port !in m;
      assert m - {port} == m;
      if timeout >= 0 {
        HoldsInserted(h, m, Entry(timeout, port));
      }
    case Some(i) =>
      if timeout < 0 {
        HoldsRemoved(h, m, i);
      } else {
        HoldsChanged(h, m, i, timeout);
      }
  }

  // ---------- What every run keeps ----------

  /** Between steps the heap is the map of pending deadlines and the descriptor is armed for its root. */
  lemma {:induction false} EveryRun(es: seq<Event>)
    ensures Holds(Run(INIT, es).heap, Deadlines(es))
    ensures Run(INIT, es).armed == ArmFor(Run(INIT, es).heap)
    ensures forall p :: p in Deadlines(es) ==> Deadlines(es)[p] >= 0
    decreases |es|
  {
    if es != [] {
      var before, e := es[..|es| - 1], es[|es| - 1];
      EveryRun(before);
      var t := Run(INIT, before);
      match e
      case Update(port, timeout) =>
        HoldsUpdated(t.heap, Deadlines(before), port, timeout);
      case Expire(_) =>
        if t.heap != [] {
          HoldsRemoved(t.heap, Deadlines(before), 0);
        }
    }
  }

  /** The descriptor is disarmed exactly when nothing is pending or the root's deadline is 0. */
  lemma ArmedIff(es: seq<Event>)
    ensures var h := Run(INIT, es).heap;
            Run(INIT, es).armed == DISARMED <==> Deadlines(es) == map[] || h == [] || h[0].priority == 0
    ensures Deadlines(es) == map[] <==> Run(INIT, es).heap == []
  {
    EveryRun(es);
    var h := Run(INIT, es).heap;
    HoldsEmpty(h, Deadlines(es));
    if h != [] {
      TimeSpecFaithful(h[0].priority);
    }
  }

  /** No port is posted before its deadline, and every expiration posts one. */
  lemma NeverEarly(es: seq<Event>, e: Event)
    requires e.Expire? && Enabled(Run(INIT, es), e)
    ensures var p := Posted(Run(INIT, es), e);
            p.Some? && p.value in Deadlines(es) && Deadlines(es)[p.value] <= e.now
    ensures var p := Posted(Run(INIT, es), e).value;
            Deadlines(es + [e]) == Deadlines(es) - {p}
  {
    EveryRun(es);
    var h := Run(INIT, es).heap;
    assert h != [] && h[0].value in Deadlines(es);
    TimeSpecFaithful(h[0].priority);
    assert (es + [e])[..|es|] == es;
  }

  // ---------- Order ----------

  /** The cancellations of a run that leave the heap in order. */
  predicate SafeCancel(t: Timer, e: Event) {
    e.Update? && e.timeout < 0 && OffsetOf(t.heap, e.port).Some? ==>
      SafeToRemove(t.heap, OffsetOf(t.heap, e.port).value)
  }

  ghost predicate SafeRun(es: seq<Event>) {
    forall k :: 0 <= k < |es| ==> SafeCancel(Run(INIT, es[..k]), es[k])
  }

  lemma StepOrders(t: Timer, e: Event)
    requires HeapOrder(t.heap)
    ensures HeapOrder(Step(t, e).heap) <==> SafeCancel(t, e)
  {
    match e
    case Update(port, timeout) =>
      match OffsetOf(t.heap, port) {
        case None =>
          if timeout >= 0 {
            InsertOrders(t.heap, Entry(timeout, port));
          }
        case Some(i) =>
          if timeout < 0 {
            RemoveAtKeepsOrderIff(t.heap, i);
          } else {
            ChangePriorityOrders(t.heap, i, timeout);
          }
      }
    case Expire(_) =>
      if t.heap != [] {
        RemoveAtKeepsOrderIff(t.heap, 0);
      }
  }

  lemma {:induction false} SafeRunOrders(es: seq<Event>)
    requires SafeRun(es)
    ensures HeapOrder(Run(INIT, es).heap)
    decreases |es|
  {
    if es != [] {
      var n := |es| - 1;
      forall k | 0 <= k < n
        ensures SafeCancel(Run(INIT, es[..n][..k]), es[..n][k])
      {
        assert es[..n][..k] == es[..k];
      }
      SafeRunOrders(es[..n]);
      StepOrders(Run(INIT, es[..n]), es[n]);
    }
  }

  /** After a run of safe cancellations each expiration serves an earliest deadline. */
  lemma EarliestFirst(es: seq<Event>, e: Event)
    requires SafeRun(es) && e.Expire? && Enabled(Run(INIT, es), e)
    ensures var p := Posted(Run(INIT, es), e);
            p.Some? && Earliest(Deadlines(es), p.value)
  {
    NeverEarly(es, e);
    EveryRun(es);
    SafeRunOrders(es);
    RootIsEarliest(Run(INIT, es).heap, Deadlines(es));
  }

  /** No pending deadline is before this one. */
  ghost predicate Earliest(m: map<int, int>, p: int) {
    p in m && forall q :: q in m ==> m[p] <= m[q]
  }

  lemma RootIsEarliest(h: Heap, m: map<int, int>)
    requires Holds(h, m) && HeapOrder(h) && h != []
    ensures Earliest(m, h[0].value) && m[h[0].value] == h[0].priority
  {
    RootIsMinimum(h);
    forall q | q in m
      ensures h[0].priority <= m[q]
    {
      var k :| 0 <= k < |h| && h[k] == Entry(m[q], q);
    }
  }

  /** After a run of safe cancellations the descriptor is set for an earliest pending deadline. */
  lemma ArmedForEarliest(es: seq<Event>, p: int)
    requires SafeRun(es) && Earliest(Deadlines(es), p)
    ensures Deadlines(es)[p] >= 0 && Run(INIT, es).armed == ToTimeSpec(Deadlines(es)[p])
  {
    EveryRun(es);
    SafeRunOrders(es);
    var h := Run(INIT, es).heap;
    HoldsEmpty(h, Deadlines(es));
    RootIsEarliest(h, Deadlines(es));
  }

  /** It is disarmed exactly when nothing is pending or a pending deadline is 0. */
  lemma DisarmedIff(es: seq<Event>)
    requires SafeRun(es)
    ensures Run(INIT, es).armed == DISARMED <==>
            Deadlines(es) == map[] || exists p :: p in Deadlines(es) && Deadlines(es)[p] == 0
  {
    EveryRun(es);
    SafeRunOrders(es);
    var h, m := Run(INIT, es).heap, Deadlines(es);
    HoldsEmpty(h, m);
    if h != [] {
      RootIsEarliest(h, m);
      TimeSpecFaithful(h[0].priority);
    }
  }

  /** One deadline of 0 is enough: the timer set last never fires. */
  lemma ZeroDisarms()
    ensures var es := [Update(7, 0), Update(8, 5)];
            && Possible(es) && SafeRun(es) && Deadlines(es) == map[7 := 0, 8 := 5]
            && forall now: nat :: !Enabled(Run(INIT, es), Expire(now))
  {
    var es := [Update(7, 0), Update(8, 5)];
    assert es[..1] == [Update(7, 0)] && es[..1][..0] == [];
    assert Deadlines(es[..1]) == map[7 := 0];
    assert Run(INIT, es[..1]).heap == [Entry(0, 7)];
    assert SafeRun(es);
    assert 7 in Deadlines(es) && Deadlines(es)[7] == 0;
    DisarmedIff(es);
  }

  // ---------- A run that serves a later deadline first ----------

  lemma {:induction false} NoRise(h: Heap, i: nat)
    requires HeapOrder(h) && i < |h|
    ensures BubbleUp(h, i) == h
    decreases i
  {
    if i > 0 {
      assert Above(h, i);
      NoRise(h, Parent(i));
    }
  }

  lemma AppendInOrder(h: Heap, e: Entry)
    requires HeapOrder(h) && (h == [] || h[Parent(|h|)].priority <= e.priority)
    ensures Insert(h, e) == h + [e] && HeapOrder(h + [e])
  {
    var g := h + [e];
    forall k | 0 < k < |g|
      ensures Above(g, k)
    {
      if k < |h| {
        assert Above(h, k);
      }
    }
    NoRise(g, |h|);
  }

  lemma RunSnoc(es: seq<Event>, e: Event)
    ensures Run(INIT, es + [e]) == Step(Run(INIT, es), e)
  {
    assert (es + [e])[..|es|] == es;
  }

  function SetAll(h: Heap): seq<Event> {
    if h == [] then [] else SetAll(h[..|h| - 1]) + [Update(h[|h| - 1].value, h[|h| - 1].priority)]
  }

  lemma PrefixOrders(h: Heap, n: nat)
    requires HeapOrder(h) && Unique(h) && n <= |h|
    ensures HeapOrder(h[..n]) && Unique(h[..n])
  {
    forall k | 0 < k < n
      ensures Above(h[..n], k)
    {
      assert Above(h, k);
    }
  }

  lemma SetNew(h: Heap, e: Entry)
    requires HeapOrder(h) && (h == [] || h[Parent(|h|)].priority <= e.priority) && e.priority >= 0
    requires forall i :: 0 <= i < |h| ==> h[i].value != e.value
    ensures UpdateHeap(h, e.value, e.priority) == h + [e]
  {
    assert OffsetOf(h, e.value).None?;
    AppendInOrder(h, e);
  }

  /** Setting deadlines that each fit under their parent leaves them in the array in that order. */
  lemma {:induction false} SetAllRun(h: Heap)
    requires HeapOrder(h) && Unique(h)
    requires forall i :: 0 <= i < |h| ==> h[i].priority >= 0
    ensures Run(INIT, SetAll(h)).heap == h
    decreases |h|
  {
    if h != [] {
      var n := |h| - 1;
      PrefixOrders(h, n);
      SetAllRun(h[..n]);
      RunSnoc(SetAll(h[..n]), Update(h[n].value, h[n].priority));
      SetLast(h);
    }
  }

  lemma SetLast(h: Heap)
    requires HeapOrder(h) && Unique(h) && h != [] && h[|h| - 1].priority >= 0
    ensures UpdateHeap(h[..|h| - 1], h[|h| - 1].value, h[|h| - 1].priority) == h
  {
    var n := |h| - 1;
    PrefixOrders(h, n);
    assert n > 0 ==> Above(h, n);
    SetNew(h[..n], h[n]);
    assert h == h[..n] + [h[n]];
  }

  lemma PossibleSnoc(es: seq<Event>, e: Event)
    requires Possible(es) && Enabled(Run(INIT, es), e)
    ensures Possible(es + [e])
  {
    var all := es + [e];
    forall k | 0 <= k < |all|
      ensures Enabled(Run(INIT, all[..k]), all[k])
    {
      assert all[..k] == es[..k];
    }
  }

  lemma {:induction false} SetAllPossible(h: Heap)
    ensures Possible(SetAll(h))
  {
    if h != [] {
      SetAllPossible(h[..|h| - 1]);
      PossibleSnoc(SetAll(h[..|h| - 1]), Update(h[|h| - 1].value, h[|h| - 1].priority));
    }
  }

  /** A root with a positive deadline expires at that time. */
  lemma RootExpires(es: seq<Event>)
    requires Possible(es) && Run(INIT, es).heap != [] && Run(INIT, es).heap[0].priority > 0
    ensures var e := Expire(Run(INIT, es).heap[0].priority);
            && Enabled(Run(INIT, es), e) && Possible(es + [e])
            && Run(INIT, es + [e]).heap == RemoveAt(Run(INIT, es).heap, 0)
  {
    var h := Run(INIT, es).heap;
    EveryRun(es);
    TimeSpecFaithful(h[0].priority);
    PossibleSnoc(es, Expire(h[0].priority));
    RunSnoc(es, Expire(h[0].priority));
  }

  /** Seven deadlines are set and one is cancelled. */
  lemma CancelledRun() returns (es: seq<Event>)
    ensures Possible(es) && Run(INIT, es).heap == RemoveAt(SEVEN, 3)
  {
    CancelledHeap();
    SetAllRun(SEVEN);
    SetAllPossible(SEVEN);
    var sets := SetAll(SEVEN);
    assert SEVEN[3].value == 4;
    assert OffsetOf(SEVEN, 4) == Some(3);
    RunSnoc(sets, Update(4, -1));
    PossibleSnoc(sets, Update(4, -1));
    es := sets + [Update(4, -1)];
  }

  /** Then two expire. */
  lemma LateRun() returns (es: seq<Event>)
    ensures Possible(es) && Run(INIT, es).heap == [Entry(5, 6), Entry(10, 2), Entry(12, 5), Entry(4, 7)]
  {
    CancelledHeap();
    es := CancelledRun();
    RootExpires(es);
    es := es + [Expire(1)];
    RootExpires(es);
    es := es + [Expire(3)];
  }

  /** A timer can expire now while one with an earlier deadline is pending. */
  ghost predicate PostsLate(es: seq<Event>) {
    exists now: nat, q: int :: LateAt(es, now, q)
  }

  ghost predicate LateAt(es: seq<Event>, now: nat, q: int) {
    && Enabled(Run(INIT, es), Expire(now))
    && var p := Posted(Run(INIT, es), Expire(now));
       p.Some? && p.value in Deadlines(es) && q in Deadlines(es) && Deadlines(es)[q] < Deadlines(es)[p.value]
  }

  /** Cancelling can make a later deadline be served while an earlier one is pending. */
  lemma LateTimer()
    ensures exists es: seq<Event> :: Possible(es) && PostsLate(es)
  {
    var es := LateRun();
    RootExpires(es);
    EveryRun(es);
    var g := Run(INIT, es).heap;
    assert g[0].value == 6 && g[3].value == 7;
    assert LateAt(es, 5, 7);
  }

  // ---------- The loop's own state ----------

  /** The offset the index gives is the one a search of the array finds. */
  lemma IndexFindsOffset(index: map<int, nat>, h: Heap, port: int)
    requires Indexes(index, h)
    ensures OffsetOf(h, port) == if port in index then Some(index[port]) else None
  {
    match OffsetOf(h, port)
    case None =>
    case Some(i) => assert h[i].value in index && index[h[i].value] == i;
  }

  class TimerLoop {
    const timeouts: Queue
    var timerFd: TimeSpec
    /** Ports posted so far, oldest first. */
    var posts: seq<int>

    ghost function State(): Timer
      reads this, timeouts
    {
      Timer(timeouts.minHeap, timerFd)
    }

    ghost predicate Valid()
      reads this, timeouts
    {
      timeouts.Valid()
    }

    constructor ()
      ensures Valid() && State() == INIT && posts == [] && fresh(timeouts)
    {
      timeouts := new Queue();
      timerFd, posts := DISARMED, [];
    }

    /** Arms the descriptor for the queue's current timeout, or disarms it. */
    method UpdateTimerFd()
      requires Valid()
      modifies this`timerFd
      ensures State() == Timer(timeouts.minHeap, ArmFor(timeouts.minHeap))
    {
      var it := DISARMED;
      if timeouts.minHeap != [] {
        var millis := timeouts.minHeap[0].priority;
        if millis >= 0 {
          it := TimeSpec(millis / 1000, millis % 1000 * 1000000);
        }
      }
      timerFd := it;
    }

    /** A timer message. */
    method HandleTimerMessage(port: int, timeout: int)
      requires Valid()
      modifies this`timerFd, timeouts
      ensures Valid() && State() == Step(old(State()), Update(port, timeout)) && posts == old(posts)
    {
      IndexFindsOffset(timeouts.index, timeouts.minHeap, port);
      if timeout < 0 {
        var _ := timeouts.RemoveByValue(port);
      } else {
        var _ := timeouts.InsertOrChangePriority(timeout, port);
      }
      UpdateTimerFd();
    }

    /** The timer descriptor is readable. */
    method HandleTimerEvent(now: nat)
      requires Valid()
      modifies this, timeouts
      ensures Valid() && State() == Step(old(State()), Expire(now))
      ensures posts == old(posts) + PostedIn(old(State()), Expire(now))
      ensures posts == if old(timeouts.minHeap) == [] then old(posts) else old(posts) + [old(timeouts.minHeap)[0].value]
    {
      if timeouts.minHeap != [] {
        posts := posts + [timeouts.minHeap[0].value];
        timeouts.RemoveMinimum();
      }
      UpdateTimerFd();
    }
  }
}
