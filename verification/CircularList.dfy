/**
 * The circular doubly linked list of the event handler, rewired node by node,
 * proved to be a sequence: `Add` appends, `Remove` deletes the first
 * occurrence, and `Rotate` moves the first element to the back.
 */
module CircularList {
  import opened Basics

  /** `s` without the first occurrence of `x`. */
  function RemoveFirst<T(==)>(s: seq<T>, x: T): seq<T> {
    if s == [] then []
    else if s[0] == x then s[1..]
    else [s[0]] + RemoveFirst(s[1..], x)
  }

  lemma {:induction false} RemoveFirstAt<T>(s: seq<T>, x: T, i: nat)
    requires i < |s| && s[i] == x && x !in s[..i]
    ensures RemoveFirst(s, x) == s[..i] + s[i + 1..]
  {
    if i > 0 {
      assert s[0] in s[..i];
      assert s[1..][..i - 1] == s[..i][1..];
      RemoveFirstAt(s[1..], x, i - 1);
      assert s[..i] + s[i + 1..] == [s[0]] + (s[1..][..i - 1] + s[1..][i..]);
    }
  }

  lemma {:induction false} RemoveFirstAbsent<T>(s: seq<T>, x: T)
    requires x !in s
    ensures RemoveFirst(s, x) == s
  {
    if s != [] {
      RemoveFirstAbsent(s[1..], x);
    }
  }

  class Node<T> {
    const t: T
    var next: Node?<T>
    var prev: Node?<T>

    constructor (t: T)
      ensures this.t == t && next == null && prev == null
    {
      this.t := t;
      next, prev := null, null;
    }
  }

  /** The index after `i` on a circle of `n`. */
  function After(i: nat, n: nat): nat
    requires i < n
  {
    if i + 1 == n then 0 else i + 1
  }

  /** The nodes form one circle, linked both ways, in this order. */
  ghost predicate Circle<T>(nodes: seq<Node<T>>)
    reads nodes
  {
    && Distinct(nodes)
    && forall i :: 0 <= i < |nodes| ==>
                     nodes[i].next == nodes[After(i, |nodes|)] && nodes[After(i, |nodes|)].prev == nodes[i]
  }

  /** The index after `j` on a circle of `n` that leaves out `k`. */
  function Skip(j: nat, k: nat, n: nat): nat
    requires j < n && k < n
  {
    if After(j, n) == k then After(k, n) else After(j, n)
  }

  lemma SplicedAt<T>(nodes: seq<Node<T>>, k: nat, i: nat)
    requires |nodes| > 1 && k < |nodes| && i < |nodes| - 1
    requires forall j :: 0 <= j < |nodes| && j != k ==>
                           nodes[j].next == nodes[Skip(j, k, |nodes|)] && nodes[Skip(j, k, |nodes|)].prev == nodes[j]
    ensures var r := nodes[..k] + nodes[k + 1..];
            r[i].next == r[After(i, |r|)] && r[After(i, |r|)].prev == r[i]
  {
    var r := nodes[..k] + nodes[k + 1..];
    var j := if i < k then i else i + 1;
    assert r[i] == nodes[j] && r[After(i, |r|)] == nodes[Skip(j, k, |nodes|)];
  }

  ghost function ItemsOf<T>(nodes: seq<Node<T>>): (s: seq<T>)
    ensures |s| == |nodes| && forall i :: 0 <= i < |s| ==> s[i] == nodes[i].t
  {
    seq(|nodes|, i requires 0 <= i < |nodes| => nodes[i].t)
  }

  class CircularLinkedList<T(==)> {
    var head: Node?<T>
    /** The nodes in order, from the head. */
    ghost var nodes: seq<Node<T>>

    ghost predicate Valid()
      reads this, nodes
    {
      && head == (if nodes == [] then null else nodes[0])
      && Circle(nodes)
    }

    ghost function Items(): seq<T>
      reads this
    {
      ItemsOf(nodes)
    }

    constructor ()
      ensures Valid() && Items() == [] && nodes == []
    {
      head, nodes := null, [];
    }

    /** Appends; returns whether the list was empty. */
    method Add(t: T) returns (wasEmpty: bool)
      requires Valid()
      modifies this, nodes
      ensures Valid() && Items() == old(Items()) + [t] && wasEmpty == (old(Items()) == [])
      ensures |nodes| == |old(nodes)| + 1 && nodes[..|old(nodes)|] == old(nodes) && fresh(nodes[|old(nodes)|])
    {
      var e := new Node(t);
      if head == null {
        e.next := e;
        e.prev := e;
        head := e;
        nodes := [e];
        return true;
      } else {
        ghost var n := |nodes|;
        assert nodes[n - 1].next == nodes[0] && After(n - 1, n) == 0;
        e.prev := head.prev;
        e.next := head;
        e.prev.next := e;
        head.prev := e;
        ghost var was := nodes;
        nodes := nodes + [e];
        forall i | 0 <= i < |nodes|
          ensures nodes[i].next == nodes[After(i, |nodes|)] && nodes[After(i, |nodes|)].prev == nodes[i]
        {
          assert i < n - 1 ==> After(i, n) == i + 1;
        }
        return false;
      }
    }

    method RemoveHead()
      requires Valid() && nodes != []
      modifies this, nodes
      ensures Valid() && Items() == old(Items())[1..] && nodes == old(nodes)[1..]
    {
      ghost var n := |nodes|;
      assert After(n - 1, n) == 0;
      var e := head;
      if e.next == e {
        assert n == 1 by {
          assert e.next == nodes[After(0, n)];
        }
        head := null;
        nodes := [];
      } else {
        assert n > 1 && e.next == nodes[1] && e.prev == nodes[n - 1];
        e.prev.next := e.next;
        e.next.prev := e.prev;
        head := e.next;
        ghost var was := nodes;
        nodes := nodes[1..];
        forall i | 0 <= i < |nodes|
          ensures nodes[i].next == nodes[After(i, |nodes|)] && nodes[After(i, |nodes|)].prev == nodes[i]
        {
          assert nodes[i] == was[i + 1];
          assert After(i + 1, n) == if i + 2 == n then 0 else i + 2;
        }
      }
    }

    /** The head moves one on. */
    method Rotate()
      requires Valid()
      modifies this
      ensures Valid() && Items() == if old(nodes) == [] then [] else old(Items())[1..] + [old(Items())[0]]
      ensures nodes == if old(nodes) == [] then [] else old(nodes)[1..] + [old(nodes)[0]]
    {
      if head != null {
        ghost var n, was := |nodes|, nodes;
        head := head.next;
        nodes := nodes[1..] + [nodes[0]];
        forall i | 0 <= i < |nodes|
          ensures nodes[i].next == nodes[After(i, n)] && nodes[After(i, n)].prev == nodes[i]
        {
          var j := After(i, n);
          assert nodes[i] == was[j] && nodes[j] == was[After(j, n)];
        }
      }
    }

    /** Joins the neighbours of the node at index `k`. */
    method Bypass(current: Node<T>, ghost k: nat)
      requires Valid() && k < |nodes| && |nodes| > 1 && current == nodes[k]
      modifies nodes
      ensures forall j :: 0 <= j < |nodes| && j != k ==>
                nodes[j].next == nodes[Skip(j, k, |nodes|)] && nodes[Skip(j, k, |nodes|)].prev == nodes[j]
      ensures forall j :: 0 <= j < |nodes| ==> nodes[j].t == old(nodes[j].t)
      ensures k == 0 ==> current.next == nodes[1]
    {
      ghost var n := |nodes|;
      ghost var p := if k == 0 then n - 1 else k - 1;
      assert After(p, n) == k && nodes[p].next == current && current.prev == nodes[p];
      var next, prev := current.next, current.prev;
      prev.next := next;
      next.prev := prev;
      forall j | 0 <= j < n && j != k
        ensures nodes[j].next == nodes[Skip(j, k, n)] && nodes[Skip(j, k, n)].prev == nodes[j]
      {
        assert j != p ==> After(j, n) != k;
      }
    }

    /** Unlinks the node at index `k`. */
    method Unlink(current: Node<T>, ghost k: nat)
      requires Valid() && k < |nodes| && |nodes| > 1 && current == nodes[k]
      modifies this, nodes
      ensures Valid() && nodes == old(nodes)[..k] + old(nodes)[k + 1..]
    {
      ghost var was := nodes;
      Bypass(current, k);
      if current == head {
        head := head.next;
      }
      nodes := nodes[..k] + nodes[k + 1..];
      forall i | 0 <= i < |nodes|
        ensures nodes[i].next == nodes[After(i, |nodes|)] && nodes[After(i, |nodes|)].prev == nodes[i]
      {
        SplicedAt(was, k, i);
      }
    }

    /** The first node holding an item, by one turn around the circle. */
    method Find(item: T) returns (found: Node?<T>, ghost k: nat)
      requires Valid() && nodes != []
      ensures found != null ==> k < |nodes| && nodes[k] == found && found.t == item && item !in Items()[..k]
      ensures found == null ==> item !in Items()
    {
      var current := head;
      k := 0;
      while true
        invariant 0 <= k < |nodes| && current == nodes[k]
        invariant item !in Items()[..k]
        decreases |nodes| - k
      {
        assert Items()[..k + 1] == Items()[..k] + [current.t];
        if current.t == item {
          return current, k;
        }
        assert current.next == nodes[After(k, |nodes|)];
        current := current.next;
        if current == head {
          assert Items()[..k + 1] == Items();
          return null, k;
        }
        k := k + 1;
      }
    }

    /** Deletes the first occurrence of an item, if there is one. */
    method Remove(item: T)
      requires Valid()
      modifies this, nodes
      ensures Valid() && Items() == RemoveFirst(old(Items()), item)
      ensures forall i :: 0 <= i < |nodes| ==> nodes[i] in old(nodes)
    {
      ghost var items := Items();
      if head == null {
        return;
      } else if head == head.next {
        assert |nodes| == 1 by {
          assert head.next == nodes[After(0, |nodes|)];
        }
        assert items == [head.t];
        if head.t == item {
          head := null;
          nodes := [];
          return;
        }
        RemoveFirstAbsent(items, item);
      } else {
        assert |nodes| > 1;
        var current, k := Find(item);
        if current == null {
          RemoveFirstAbsent(items, item);
        } else {
          RemoveFirstAt(items, item, k);
          Unlink(current, k);
          assert Items() == items[..k] + items[k + 1..];
        }
      }
    }

    method RemoveAll()
      requires Valid()
      modifies this, nodes
      ensures Valid() && Items() == []
    {
      while head != null
        invariant Valid() && |nodes| <= |old(nodes)| && nodes == old(nodes)[|old(nodes)| - |nodes|..]
        decreases |nodes|
      {
        RemoveHead();
      }
    }
  }
}
