/**
 * The binary min-heap with deletion by value behind the timeout queue.
 *
 * Each operation is a function on the heap's array; the class below keeps the
 * array and the value-to-offset index in step and is proved to compute those
 * functions.  What the operations keep is proved about the functions: no entry
 * is ever lost or invented, and all but one of them keep the heap order.
 * Deletion at an inner offset moves the last entry there and only lets it sink,
 * so it keeps the order exactly when that entry is not smaller than its new parent.
 */
module PriorityQueue {

  datatype Entry = Entry(priority: int, value: int)

  type Heap = seq<Entry>

  function Parent(i: nat): nat
    requires i > 0
  {
    (i - 1) / 2
  }

  // ---------- The operations ----------

  function Swap(h: Heap, i: nat, j: nat): (r: Heap)
    requires i < |h| && j < |h|
    ensures |r| == |h|
  {
    h[i := h[j]][j := h[i]]
  }

  function BubbleUp(h: Heap, i: nat): (r: Heap)
    requires i < |h|
    ensures |r| == |h|
    decreases i
  {
    if i == 0 then h
    else if h[Parent(i)].priority > h[i].priority then BubbleUp(Swap(h, Parent(i), i), Parent(i))
    else BubbleUp(h, Parent(i))
  }

  /** The smallest of an offset and its children, preferring the offset, then the left child. */
  function SmallestOf(h: Heap, i: nat): (j: nat)
    requires i < |h|
    ensures j == i || ((j == 2 * i + 1 || j == 2 * i + 2) && j < |h|)
    ensures h[j].priority <= h[i].priority
    ensures j != i ==> h[j].priority < h[i].priority
    ensures 2 * i + 1 < |h| ==> h[j].priority <= h[2 * i + 1].priority
    ensures 2 * i + 2 < |h| ==> h[j].priority <= h[2 * i + 2].priority
  {
    var left, right := 2 * i + 1, 2 * i + 2;
    if left >= |h| then i
    else
      var j := if h[left].priority < h[i].priority then left else i;
      if right < |h| && h[right].priority < h[j].priority then right else j
  }

  function BubbleDown(h: Heap, i: nat): (r: Heap)
    requires i < |h|
    ensures |r| == |h|
    decreases |h| - i
  {
    var j := SmallestOf(h, i);
    if j == i then h else BubbleDown(Swap(h, i, j), j)
  }

  function Insert(h: Heap, e: Entry): Heap {
    BubbleUp(h + [e], |h|)
  }

  /** Replace by the last entry, then sink it. */
  function RemoveAt(h: Heap, i: nat): (r: Heap)
    requires i < |h|
    ensures |r| == |h| - 1
  {
    var last := |h| - 1;
    if i == last then h[..last] else BubbleDown(h[..last][i := h[last]], i)
  }

  function ChangePriority(h: Heap, i: nat, priority: int): Heap
    requires i < |h|
  {
    var g := h[i := Entry(priority, h[i].value)];
    if i == 0 then BubbleDown(g, i)
    else if priority < g[Parent(i)].priority then BubbleUp(g, i)
    else if priority > g[Parent(i)].priority then BubbleDown(g, i)
    else g
  }

  // ---------- Nothing is lost ----------

  lemma SwapPermutes(h: Heap, i: nat, j: nat)
    requires i < |h| && j < |h|
    ensures multiset(Swap(h, i, j)) == multiset(h)
  {
  }

  lemma {:induction false} BubbleUpPermutes(h: Heap, i: nat)
    requires i < |h|
    ensures multiset(BubbleUp(h, i)) == multiset(h)
    decreases i
  {
    if i > 0 {
      if h[Parent(i)].priority > h[i].priority {
        SwapPermutes(h, Parent(i), i);
        BubbleUpPermutes(Swap(h, Parent(i), i), Parent(i));
      } else {
        BubbleUpPermutes(h, Parent(i));
      }
    }
  }

  lemma {:induction false} BubbleDownPermutes(h: Heap, i: nat)
    requires i < |h|
    ensures multiset(BubbleDown(h, i)) == multiset(h)
    decreases |h| - i
  {
    var j := SmallestOf(h, i);
    if j != i {
      SwapPermutes(h, i, j);
      BubbleDownPermutes(Swap(h, i, j), j);
    }
  }

  lemma InsertAdds(h: Heap, e: Entry)
    ensures multiset(Insert(h, e)) == multiset(h) + multiset{e}
  {
    BubbleUpPermutes(h + [e], |h|);
  }

  lemma ReplaceCounts(h: Heap, i: nat, e: Entry)
    requires i < |h|
    ensures multiset(h[i := e]) == multiset(h) - multiset{h[i]} + multiset{e}
  {
  }

  /** Deletion removes exactly the entry at the offset, in order or not. */
  lemma RemoveAtRemoves(h: Heap, i: nat)
    requires i < |h|
    ensures multiset(RemoveAt(h, i)) == multiset(h) - multiset{h[i]}
  {
    var last := |h| - 1;
    assert h == h[..last] + [h[last]];
    if i < last {
      var front := h[..last];
      assert front[i] == h[i];
      ReplaceCounts(front, i, h[last]);
      BubbleDownPermutes(front[i := h[last]], i);
    }
  }

  lemma ChangePriorityChanges(h: Heap, i: nat, priority: int)
    requires i < |h|
    ensures multiset(ChangePriority(h, i, priority)) ==
            multiset(h) - multiset{h[i]} + multiset{Entry(priority, h[i].value)}
  {
    var g := h[i := Entry(priority, h[i].value)];
    ReplaceCounts(h, i, Entry(priority, h[i].value));
    BubbleDownPermutes(g, i);
    BubbleUpPermutes(g, i);
  }

  // ---------- Heap order ----------

  /** `h[i]` is not smaller than its parent. */
  predicate Above(h: Heap, i: nat)
    requires 0 < i < |h|
  {
    h[Parent(i)].priority <= h[i].priority
  }

  ghost predicate HeapOrder(h: Heap) {
    forall i :: 0 < i < |h| ==> Above(h, i)
  }

  /** In order but for `i` and its parent; `i`'s children are not smaller than `i`'s parent. */
  ghost predicate OrderBut(h: Heap, i: nat)
    requires i < |h|
  {
    && (forall k :: 0 < k < |h| && k != i ==> Above(h, k))
    && (i > 0 ==> forall k :: 0 < k < |h| && Parent(k) == i ==> h[Parent(i)].priority <= h[k].priority)
  }

  /** In order but for `i` and its children; they are not smaller than `i`'s parent. */
  ghost predicate OrderAbove(h: Heap, i: nat)
    requires i < |h|
  {
    && (forall k :: 0 < k < |h| && Parent(k) != i ==> Above(h, k))
    && (i > 0 ==> forall k :: 0 < k < |h| && Parent(k) == i ==> h[Parent(i)].priority <= h[k].priority)
  }

  lemma RiseKeeps(h: Heap, i: nat)
    requires 0 < i < |h| && OrderBut(h, i)
    ensures OrderBut(if h[Parent(i)].priority > h[i].priority then Swap(h, Parent(i), i) else h, Parent(i))
  {
    var p := Parent(i);
    var g := if h[p].priority > h[i].priority then Swap(h, p, i) else h;
    forall k | 0 < k < |g| && k != p
      ensures Above(g, k)
    {
      assert k != i ==> Above(h, k);
    }
    if p > 0 {
      assert Above(h, p);
      forall k | 0 < k < |g| && Parent(k) == p
        ensures g[Parent(p)].priority <= g[k].priority
      {
        assert k != i ==> Above(h, k);
      }
    }
  }

  lemma {:induction false} BubbleUpOrders(h: Heap, i: nat)
    requires i < |h| && OrderBut(h, i)
    ensures HeapOrder(BubbleUp(h, i))
    decreases i
  {
    if i > 0 {
      RiseKeeps(h, i);
      BubbleUpOrders(if h[Parent(i)].priority > h[i].priority then Swap(h, Parent(i), i) else h, Parent(i));
    }
  }

  lemma SinkKeeps(h: Heap, i: nat)
    requires i < |h| && OrderAbove(h, i) && SmallestOf(h, i) != i
    ensures OrderAbove(Swap(h, i, SmallestOf(h, i)), SmallestOf(h, i))
  {
    var j := SmallestOf(h, i);
    var g := Swap(h, i, j);
    assert Parent(j) == i;
    forall k | 0 < k < |g| && Parent(k) != j
      ensures Above(g, k)
    {
      assert Parent(k) == i ==> k == 2 * i + 1 || k == 2 * i + 2;
      assert Parent(k) != i ==> Above(h, k);
    }
    forall k | 0 < k < |g| && Parent(k) == j
      ensures g[Parent(j)].priority <= g[k].priority
    {
      assert Above(h, k);
    }
  }

  lemma {:induction false} BubbleDownOrders(h: Heap, i: nat)
    requires i < |h| && OrderAbove(h, i)
    ensures HeapOrder(BubbleDown(h, i))
    decreases |h| - i
  {
    var j := SmallestOf(h, i);
    if j == i {
      forall k | 0 < k < |h|
        ensures Above(h, k)
      {
        assert Parent(k) == i ==> k == 2 * i + 1 || k == 2 * i + 2;
      }
    } else {
      SinkKeeps(h, i);
      BubbleDownOrders(Swap(h, i, j), j);
    }
  }

  lemma InsertOrders(h: Heap, e: Entry)
    requires HeapOrder(h)
    ensures HeapOrder(Insert(h, e))
  {
    var g := h + [e];
    forall k | 0 < k < |g| && k != |h|
      ensures Above(g, k)
    {
      assert Above(h, k);
    }
    BubbleUpOrders(g, |h|);
  }

  lemma ParentIsMinimal(h: Heap, i: nat, k: nat)
    requires HeapOrder(h) && 0 < i < |h| && k < |h| && k > 0 && Parent(k) == i
    ensures h[Parent(i)].priority <= h[k].priority
  {
    assert Above(h, k) && Above(h, i);
  }

  lemma ChangePriorityOrders(h: Heap, i: nat, priority: int)
    requires HeapOrder(h) && i < |h|
    ensures HeapOrder(ChangePriority(h, i, priority))
  {
    var g := h[i := Entry(priority, h[i].value)];
    forall k | 0 < k < |h| && k != i && Parent(k) != i
      ensures Above(g, k)
    {
      assert Above(h, k);
    }
    forall k | 0 < k < |h| && i > 0 && Parent(k) == i
      ensures g[Parent(i)].priority <= g[k].priority
    {
      ParentIsMinimal(h, i, k);
    }
    if i > 0 && priority < g[Parent(i)].priority {
      forall k | 0 < k < |h| && k != i
        ensures Above(g, k)
      {
        assert Above(h, k) && Above(h, i);
      }
      BubbleUpOrders(g, i);
    } else {
      assert i > 0 ==> Above(g, i);
      assert OrderAbove(g, i);
      BubbleDownOrders(g, i);
      if i > 0 && priority == g[Parent(i)].priority {
        assert HeapOrder(g);
      }
    }
  }

  /** When deletion at `i` keeps the order: what a caller can check before the call. */
  predicate SafeToRemove(h: Heap, i: nat)
    requires i < |h|
  {
    i == 0 || i == |h| - 1 || h[Parent(i)].priority <= h[|h| - 1].priority
  }

  lemma RemoveAtOrders(h: Heap, i: nat)
    requires HeapOrder(h) && i < |h| && SafeToRemove(h, i)
    ensures HeapOrder(RemoveAt(h, i))
  {
    var last := |h| - 1;
    if i == last {
      forall k | 0 < k < last
        ensures Above(h[..last], k)
      {
        assert Above(h, k);
      }
    } else {
      var g := h[..last][i := h[last]];
      forall k | 0 < k < |g| && Parent(k) != i
        ensures Above(g, k)
      {
        assert Above(h, k);
      }
      forall k | 0 < k < |g| && i > 0 && Parent(k) == i
        ensures g[Parent(i)].priority <= g[k].priority
      {
        ParentIsMinimal(h, i, k);
      }
      BubbleDownOrders(g, i);
    }
  }

  lemma RemoveAtBreaks(h: Heap, i: nat)
    requires HeapOrder(h) && i < |h| && !SafeToRemove(h, i)
    ensures !HeapOrder(RemoveAt(h, i))
  {
    var last := |h| - 1;
    var g := h[..last][i := h[last]];
    // The moved entry is smaller than everything below it, so it does not sink.
    forall k | 0 < k < |g| && Parent(k) == i
      ensures g[i].priority < g[k].priority
    {
      ParentIsMinimal(h, i, k);
    }
    assert 2 * i + 1 < |g| ==> Parent(2 * i + 1) == i;
    assert 2 * i + 2 < |g| ==> Parent(2 * i + 2) == i;
    assert BubbleDown(g, i) == g;
    assert !Above(g, i);
  }

  /** Deletion keeps the heap order exactly when the moved entry fits under its new parent. */
  lemma RemoveAtKeepsOrderIff(h: Heap, i: nat)
    requires HeapOrder(h) && i < |h|
    ensures HeapOrder(RemoveAt(h, i)) <==> SafeToRemove(h, i)
  {
    if SafeToRemove(h, i) {
      RemoveAtOrders(h, i);
    } else {
      RemoveAtBreaks(h, i);
    }
  }

  // ---------- The minimum ----------

  ghost predicate IsMinimum(h: Heap, e: Entry) {
    e in h && forall k :: 0 <= k < |h| ==> e.priority <= h[k].priority
  }

  lemma {:induction false} RootBelow(h: Heap, k: nat)
    requires HeapOrder(h) && k < |h|
    ensures h[0].priority <= h[k].priority
    decreases k
  {
    if k > 0 {
      assert Above(h, k);
      RootBelow(h, Parent(k));
    }
  }

  lemma RootIsMinimum(h: Heap)
    requires HeapOrder(h) && h != []
    ensures IsMinimum(h, h[0])
  {
    forall k | 0 <= k < |h|
      ensures h[0].priority <= h[k].priority
    {
      RootBelow(h, k);
    }
  }

  /** Values are distinct. */
  ghost predicate Unique(h: Heap) {
    forall i, j :: 0 <= i < j < |h| ==> h[i].value != h[j].value
  }

  const SEVEN: Heap := [Entry(1, 1), Entry(10, 2), Entry(3, 3), Entry(11, 4), Entry(12, 5), Entry(5, 6), Entry(4, 7)]

  /** One cancellation, at offset 3, leaves 4 below 10, and two firings bring 5 to the root. */
  lemma CancelledHeap()
    ensures HeapOrder(SEVEN) && Unique(SEVEN)
    ensures RemoveAt(SEVEN, 3)[0] == Entry(1, 1) && RemoveAt(RemoveAt(SEVEN, 3), 0)[0] == Entry(3, 3)
    ensures RemoveAt(RemoveAt(RemoveAt(SEVEN, 3), 0), 0) == [Entry(5, 6), Entry(10, 2), Entry(12, 5), Entry(4, 7)]
  {
    var h := SEVEN;
    var g := [Entry(1, 1), Entry(10, 2), Entry(3, 3), Entry(4, 7), Entry(12, 5), Entry(5, 6)];
    assert h[..6][3 := h[6]] == g;
    assert RemoveAt(h, 3) == g;

    var g1 := [Entry(3, 3), Entry(10, 2), Entry(5, 6), Entry(4, 7), Entry(12, 5)];
    var m1 := [Entry(5, 6), Entry(10, 2), Entry(3, 3), Entry(4, 7), Entry(12, 5)];
    assert g[..5][0 := g[5]] == m1;
    assert SmallestOf(m1, 0) == 2 && Swap(m1, 0, 2) == g1 && SmallestOf(g1, 2) == 2;
    assert BubbleDown(g1, 2) == g1;
    assert RemoveAt(g, 0) == g1;

    var g2 := [Entry(5, 6), Entry(10, 2), Entry(12, 5), Entry(4, 7)];
    var m2 := [Entry(12, 5), Entry(10, 2), Entry(5, 6), Entry(4, 7)];
    assert g1[..4][0 := g1[4]] == m2;
    assert SmallestOf(m2, 0) == 2 && Swap(m2, 0, 2) == g2 && SmallestOf(g2, 2) == 2;
    assert BubbleDown(g2, 2) == g2;
    assert RemoveAt(g1, 0) == g2;
  }

  // ---------- The class ----------

  /** The index holds every value's offset and nothing else. */
  ghost predicate Indexes(index: map<int, nat>, h: Heap) {
    && (forall i :: 0 <= i < |h| ==> h[i].value in index && index[h[i].value] == i)
    && (forall v :: v in index ==> index[v] < |h| && h[index[v]].value == v)
  }

  const MINIMUM_SIZE: nat := 16

  class Queue {
    var minHeap: Heap
    var index: map<int, nat>
    var capacity: nat

    /** The array never overflows its allocation, which shrinks to no less than the minimum. */
    ghost predicate Valid()
      reads this
    {
      && Indexes(index, minHeap)
      && |minHeap| <= capacity && capacity >= MINIMUM_SIZE
    }

    constructor ()
      ensures Valid() && minHeap == [] && capacity == MINIMUM_SIZE
    {
      minHeap, index, capacity := [], map[], MINIMUM_SIZE;
    }

    method SwapEntries(i: nat, j: nat)
      requires Indexes(index, minHeap) && i < |minHeap| && j < |minHeap| && i != j
      modifies this`minHeap, this`index
      ensures Indexes(index, minHeap) && minHeap == Swap(old(minHeap), i, j)
    {
      minHeap := minHeap[i := minHeap[j]][j := minHeap[i]];
      index := index[minHeap[i].value := i];
      index := index[minHeap[j].value := j];
    }

    method DoBubbleUp(start: nat)
      requires Indexes(index, minHeap) && start < |minHeap|
      modifies this`minHeap, this`index
      ensures Indexes(index, minHeap) && minHeap == BubbleUp(old(minHeap), start)
    {
      var offset: nat := start;
      while offset > 0
        invariant Indexes(index, minHeap) && offset < |minHeap|
        invariant BubbleUp(minHeap, offset) == BubbleUp(old(minHeap), start)
      {
        var parent := Parent(offset);
        if minHeap[parent].priority > minHeap[offset].priority {
          SwapEntries(parent, offset);
        }
        offset := parent;
      }
    }

    method DoBubbleDown(start: nat)
      requires Indexes(index, minHeap) && start < |minHeap|
      modifies this`minHeap, this`index
      ensures Indexes(index, minHeap) && minHeap == BubbleDown(old(minHeap), start)
    {
      var offset: nat := start;
      while true
        invariant Indexes(index, minHeap) && offset < |minHeap|
        invariant BubbleDown(minHeap, offset) == BubbleDown(old(minHeap), start)
        decreases |minHeap| - offset
      {
        var left := 2 * offset + 1;
        if left >= |minHeap| { return; }
        var smallest := offset;
        if minHeap[left].priority < minHeap[offset].priority {
          smallest := left;
        }
        var right := left + 1;
        if right < |minHeap| {
          if minHeap[right].priority < minHeap[smallest].priority {
            smallest := right;
          }
        }
        assert smallest == SmallestOf(minHeap, offset);
        if offset == smallest { return; }
        SwapEntries(offset, smallest);
        offset := smallest;
      }
    }

    method InsertEntry(priority: int, value: int)
      requires Valid() && value !in index
      modifies this
      ensures Valid() && minHeap == Insert(old(minHeap), Entry(priority, value))
      ensures capacity == if old(|minHeap| == capacity) then 2 * old(capacity) else old(capacity)
    {
      if |minHeap| == capacity {
        capacity := 2 * capacity;
      }
      index := index[value := |minHeap|];
      minHeap := minHeap + [Entry(priority, value)];
      DoBubbleUp(|minHeap| - 1);
    }

    method RemoveEntry(offset: nat)
      requires Valid() && offset < |minHeap|
      modifies this
      ensures Valid() && minHeap == RemoveAt(old(minHeap), offset)
      ensures capacity ==
              if |minHeap| <= old(capacity) / 4 && 16 <= old(capacity) / 2 then old(capacity) / 2 else old(capacity)
    {
      var last := |minHeap| - 1;
      IndexDropsLast(index, minHeap, offset);
      if offset == last {
        index := index - {minHeap[offset].value};
        minHeap := minHeap[..last];
      } else {
        index := (index - {minHeap[offset].value})[minHeap[last].value := offset];
        minHeap := minHeap[..last][offset := minHeap[last]];
        DoBubbleDown(offset);
      }
      if |minHeap| <= capacity / 4 && MINIMUM_SIZE <= capacity / 2 {
        capacity := capacity / 2;
      }
    }

    method RemoveMinimum()
      requires Valid() && minHeap != []
      modifies this
      ensures Valid() && minHeap == RemoveAt(old(minHeap), 0)
      ensures old(HeapOrder(minHeap)) ==> HeapOrder(minHeap)
    {
      ghost var was := minHeap;
      RemoveEntry(0);
      if HeapOrder(was) {
        RemoveAtOrders(was, 0);
      }
    }

    method RemoveByValue(value: int) returns (found: bool)
      requires Valid()
      modifies this
      ensures Valid() && found == old(value in index)
      ensures minHeap == if found then RemoveAt(old(minHeap), old(index)[value]) else old(minHeap)
    {
      found := value in index;
      if found {
        RemoveEntry(index[value]);
      }
    }

    /** Returns whether the value was new. */
    method InsertOrChangePriority(priority: int, value: int) returns (inserted: bool)
      requires Valid()
      modifies this
      ensures Valid() && inserted == old(value !in index)
      ensures minHeap == if inserted then Insert(old(minHeap), Entry(priority, value))
                         else ChangePriority(old(minHeap), old(index)[value], priority)
      ensures old(HeapOrder(minHeap)) ==> HeapOrder(minHeap)
    {
      ghost var was := minHeap;
      inserted := value !in index;
      if inserted {
        InsertEntry(priority, value);
        if HeapOrder(was) {
          InsertOrders(was, Entry(priority, value));
        }
      } else {
        var offset := index[value];
        if HeapOrder(was) {
          ChangePriorityOrders(was, offset, priority);
        }
        minHeap := minHeap[offset := Entry(priority, minHeap[offset].value)];
        if offset == 0 {
          DoBubbleDown(offset);
        } else {
          var parent := Parent(offset);
          var diff := minHeap[offset].priority - minHeap[parent].priority;
          if diff < 0 {
            DoBubbleUp(offset);
          } else if diff > 0 {
            DoBubbleDown(offset);
          }
        }
      }
    }
  }

  lemma IndexDropsLast(index: map<int, nat>, h: Heap, i: nat)
    requires Indexes(index, h) && i < |h|
    ensures var last := |h| - 1;
            if i == last then Indexes(index - {h[i].value}, h[..last])
            else Indexes((index - {h[i].value})[h[last].value := i], h[..last][i := h[last]])
  {
    var last := |h| - 1;
    var index' := index - {h[i].value};
    assert forall k :: 0 <= k < |h| && k != i ==> h[k].value in index' && index'[h[k].value] == k;
    if i != last {
      assert h[last].value in index' && index'[h[last].value] == last;
    }
  }
}
