/**
 * The descriptor of a listening socket, as the event handler keeps it: port
 * entries on the heap, a map from port to entry, and the circular list of the
 * ready entries.  Every method is proved to act on the pair of entries and
 * queue as the operations of `Backpressure` do, and so to keep the list and the
 * map in agreement after every operation.
 */
module Listening {
  import opened Basics
  import opened CircularList
  import opened Backpressure

  class PortEntry {
    const dartPort: Port
    var isReading: bool
    var tokenCount: int

    constructor (port: Port, reading: bool)
      ensures dartPort == port && isReading == reading && tokenCount == LISTENING_TOKENS
    {
      dartPort, isReading, tokenCount := port, reading, LISTENING_TOKENS;
    }

    predicate Ready()
      reads this
    {
      tokenCount > 0 && isReading
    }
  }

  ghost function PortsOf(entries: seq<PortEntry>): (s: seq<Port>)
    ensures |s| == |entries| && forall i :: 0 <= i < |s| ==> s[i] == entries[i].dartPort
  {
    seq(|entries|, i requires 0 <= i < |entries| => entries[i].dartPort)
  }

  /** Deleting an entry deletes its port, when no other entry has that port. */
  lemma {:induction false} PortsOfRemoved(entries: seq<PortEntry>, e: PortEntry)
    requires forall i :: 0 <= i < |entries| && entries[i].dartPort == e.dartPort ==> entries[i] == e
    ensures PortsOf(RemoveFirst(entries, e)) == RemoveFirst(PortsOf(entries), e.dartPort)
  {
    if entries != [] {
      assert PortsOf(entries)[1..] == PortsOf(entries[1..]);
      if entries[0] != e {
        PortsOfRemoved(entries[1..], e);
      }
    }
  }

  lemma {:induction false} RemoveFirstSubset<T>(s: seq<T>, x: T)
    ensures forall y :: y in RemoveFirst(s, x) ==> y in s
  {
    if s != [] {
      RemoveFirstSubset(s[1..], x);
    }
  }

  ghost function StateOf(e: PortEntry): PortState
    reads e
  {
    PortState(e.isReading, e.tokenCount)
  }

  class DescriptorInfoMultiple {
    const activeReaders: CircularLinkedList<PortEntry>
    var tokensMap: map<Port, PortEntry>

    /** Entries are filed under their own port, and the list holds filed entries. */
    ghost predicate Filed()
      reads this, activeReaders
    {
      && (forall p :: p in tokensMap ==> tokensMap[p].dartPort == p)
      && forall e :: e in activeReaders.Items() ==> e.dartPort in tokensMap && tokensMap[e.dartPort] == e
    }

    ghost function View(): Multi
      reads this, activeReaders, tokensMap.Values
    {
      Multi(map p | p in tokensMap :: StateOf(tokensMap[p]), PortsOf(activeReaders.Items()))
    }

    ghost predicate Valid()
      reads this, activeReaders, activeReaders.nodes, tokensMap.Values
    {
      activeReaders.Valid() && Filed() && Agrees(View())
    }

    constructor ()
      ensures Valid() && View() == NEW_MULTI && fresh(activeReaders)
    {
      activeReaders := new CircularLinkedList<PortEntry>();
      tokensMap := map[];
    }

    /** Deletes a filed entry from the list. */
    lemma OneEntry(e: PortEntry)
      requires activeReaders.Valid() && Filed() && e.dartPort in tokensMap && tokensMap[e.dartPort] == e
      ensures forall i :: 0 <= i < |activeReaders.Items()| && activeReaders.Items()[i].dartPort == e.dartPort ==>
                activeReaders.Items()[i] == e
    {
      forall i | 0 <= i < |activeReaders.Items()| && activeReaders.Items()[i].dartPort == e.dartPort
        ensures activeReaders.Items()[i] == e
      {
        assert activeReaders.Items()[i] in activeReaders.Items();
      }
    }

    method RemoveReader(e: PortEntry)
      requires activeReaders.Valid() && Filed() && e.dartPort in tokensMap && tokensMap[e.dartPort] == e
      modifies activeReaders, activeReaders.nodes
      ensures activeReaders.Valid() && Filed()
      ensures View() == Multi(old(View()).entries, RemoveFirst(old(View()).ready, e.dartPort))
      ensures forall i :: 0 <= i < |activeReaders.nodes| ==> activeReaders.nodes[i] in old(activeReaders.nodes)
    {
      ghost var items := activeReaders.Items();
      OneEntry(e);
      PortsOfRemoved(items, e);
      RemoveFirstSubset(items, e);
      activeReaders.Remove(e);
      assert activeReaders.Items() == RemoveFirst(items, e);
      assert View().entries == old(View()).entries;
    }

    method AddReader(e: PortEntry)
      requires activeReaders.Valid() && Filed() && e.dartPort in tokensMap && tokensMap[e.dartPort] == e
      modifies activeReaders, activeReaders.nodes
      ensures activeReaders.Valid() && Filed()
      ensures View() == Multi(old(View()).entries, old(View()).ready + [e.dartPort])
      ensures forall x :: x in activeReaders.nodes ==> x in old(activeReaders.nodes) || fresh(x)
    {
      var _ := activeReaders.Add(e);
    }

    /** The list's nodes and the map's entries are those there were, or new. */
    twostate predicate Grows()
      reads this, activeReaders
    {
      && (forall x :: x in activeReaders.nodes ==> x in old(activeReaders.nodes) || fresh(x))
      && (forall p :: p in tokensMap ==> tokensMap[p] in old(tokensMap.Values) || fresh(tokensMap[p]))
    }

    /** Writes an entry's fields; no other entry changes. */
    method Store(p: Port, state: PortState)
      requires p in tokensMap && Filed()
      modifies tokensMap[p]
      ensures StateOf(tokensMap[p]) == state
      ensures View() == Multi(old(View()).entries[p := state], old(View()).ready)
    {
      var e := tokensMap[p];
      e.isReading, e.tokenCount := state.reading, state.tokens;
      forall q | q in tokensMap && q != p
        ensures tokensMap[q] != e
      {
        assert tokensMap[q].dartPort == q && tokensMap[p].dartPort == p;
      }
      assert View().entries == old(View()).entries[p := state];
    }

    /** Files a new entry. */
    method File(p: Port, reading: bool)
      requires p !in tokensMap && Filed()
      modifies this
      ensures p in tokensMap && fresh(tokensMap[p]) && tokensMap == old(tokensMap)[p := tokensMap[p]] && Filed()
      ensures StateOf(tokensMap[p]) == PortState(reading, LISTENING_TOKENS)
      ensures View() == Multi(old(View()).entries[p := PortState(reading, LISTENING_TOKENS)], old(View()).ready)
    {
      var e := new PortEntry(p, reading);
      tokensMap := tokensMap[p := e];
      assert View().entries == old(View()).entries[p := PortState(reading, LISTENING_TOKENS)];
    }

    /** Inserts a port, or changes whether it reads. */
    method SetPortMask(port: Port, mask: Mask)
      requires Valid()
      modifies this, activeReaders, activeReaders.nodes, tokensMap.Values
      ensures Valid() && View() == SetPortAndMask(old(View()), port, mask == READ_ONLY)
      ensures Grows()
    {
      if port !in tokensMap {
        NewPort(port, mask == READ_ONLY);
      } else {
        ChangePort(port, mask == READ_ONLY);
      }
    }

    method NewPort(port: Port, isReading: bool)
      requires Valid() && port !in tokensMap
      modifies this, activeReaders, activeReaders.nodes
      ensures Valid() && View() == SetPortAndMask(old(View()), port, isReading)
      ensures Grows()
    {
      ghost var was := View();
      SetEntryAgrees(was, port, SetPortAndMask(was, port, isReading).entries[port]);
      File(port, isReading);
      if tokensMap[port].Ready() {
        AddReader(tokensMap[port]);
      }
    }

    method ChangePort(port: Port, isReading: bool)
      requires Valid() && port in tokensMap
      modifies this, activeReaders, activeReaders.nodes, tokensMap.Values
      ensures Valid() && View() == SetPortAndMask(old(View()), port, isReading)
      ensures Grows()
    {
      ghost var was := View();
      SetEntryAgrees(was, port, SetPortAndMask(was, port, isReading).entries[port]);
      var e := tokensMap[port];
      var wasReady := e.Ready();
      Store(port, PortState(isReading, e.tokenCount));
      var isReady := e.Ready();
      if wasReady && !isReady {
        RemoveReader(e);
      } else if !wasReady && isReady {
        AddReader(e);
      }
    }

    /** A port goes; one that never came is let pass. */
    method RemovePortEntry(port: Port)
      requires Valid()
      modifies this, activeReaders, activeReaders.nodes
      ensures Valid() && View() == RemovePort(old(View()), port)
      ensures Grows()
    {
      ghost var was := View();
      RemovePortAgrees(was, port);
      if port in tokensMap {
        var e := tokensMap[port];
        if e.Ready() {
          RemoveReader(e);
        }
        Unfile(port, RemovePort(was, port));
      } else {
        assert was.entries - {port} == was.entries;
      }
    }

    /** Drops an entry that is not in the list. */
    method Unfile(p: Port, ghost after: Multi)
      requires p in tokensMap && Filed() && Agrees(after)
      requires after == Multi(View().entries - {p}, View().ready)
      modifies this
      ensures tokensMap == old(tokensMap) - {p} && Filed() && View() == after
    {
      assert p !in after.ready by {
        assert !PortReady(after, p);
      }
      forall e | e in activeReaders.Items()
        ensures e.dartPort != p
      {
        var i :| 0 <= i < |activeReaders.Items()| && activeReaders.Items()[i] == e;
        assert after.ready[i] == e.dartPort && after.ready[i] in after.ready;
      }
      tokensMap := tokensMap - {p};
      assert View().entries == after.entries;
    }

    /** The port at the head of the queue pays a token and goes to the back, or leaves with its last one. */
    method NextNotifyDartPort() returns (port: Port)
      requires Valid()
      modifies activeReaders, activeReaders.nodes, tokensMap.Values
      ensures Valid() && View() == Notify(old(View())) && port == NextPort(old(View()))
      ensures Grows()
    {
      if activeReaders.head != null {
        port := ServeHead();
      } else {
        port := ILLEGAL_PORT;
      }
    }

    /** The port at the head pays a token, and leaves the queue or goes to its end. */
    method ServeHead() returns (port: Port)
      requires Valid() && activeReaders.head != null
      modifies activeReaders, activeReaders.nodes, tokensMap.Values
      ensures Valid() && View() == Notify(old(View())) && port == NextPort(old(View()))
      ensures Grows()
    {
      NotifyAgrees(View());
      var tokens;
      port, tokens := PayHead();
      MoveHead(tokens);
    }

    /** The head leaves the list without tokens and goes to its end with some. */
    method MoveHead(tokens: int)
      requires activeReaders.Valid() && Filed() && activeReaders.nodes != []
      modifies activeReaders, activeReaders.nodes
      ensures activeReaders.Valid() && Filed() && View().entries == old(View()).entries
      ensures var ready := old(View()).ready; View().ready == if tokens <= 0 then ready[1..] else ready[1..] + [ready[0]]
      ensures forall i :: 0 <= i < |activeReaders.nodes| ==> activeReaders.nodes[i] in old(activeReaders.nodes)
    {
      if tokens <= 0 {
        DropHead();
      } else {
        RotateReaders();
      }
    }

    /** The reader at the head pays a token. */
    method PayHead() returns (port: Port, tokens: int)
      requires Valid() && activeReaders.head != null
      modifies tokensMap.Values
      ensures activeReaders.Valid() && Filed() && old(View()).ready != [] && port == old(View()).ready[0]
      ensures port in old(View()).entries && tokens == old(View()).entries[port].tokens - 1
      ensures View() == Multi(old(View()).entries[port := old(View()).entries[port].(tokens := tokens)], old(View()).ready)
    {
      var e := activeReaders.head.t;
      assert e == activeReaders.Items()[0] && e in activeReaders.Items();
      port, tokens := e.dartPort, e.tokenCount - 1;
      Store(port, PortState(e.isReading, tokens));
    }

    method DropHead()
      requires activeReaders.Valid() && Filed() && activeReaders.nodes != []
      modifies activeReaders, activeReaders.nodes
      ensures activeReaders.Valid() && Filed()
      ensures View() == Multi(old(View()).entries, old(View()).ready[1..])
      ensures activeReaders.nodes == old(activeReaders.nodes)[1..]
    {
      activeReaders.RemoveHead();
      assert PortsOf(activeReaders.Items()) == old(View()).ready[1..];
    }

    method RotateReaders()
      requires activeReaders.Valid() && Filed() && activeReaders.nodes != []
      modifies activeReaders
      ensures activeReaders.Valid() && Filed()
      ensures View() == Multi(old(View()).entries, old(View()).ready[1..] + [old(View()).ready[0]])
      ensures forall i :: 0 <= i < |activeReaders.nodes| ==> activeReaders.nodes[i] in old(activeReaders.nodes)
    {
      activeReaders.Rotate();
      assert PortsOf(activeReaders.Items()) == old(View()).ready[1..] + [old(View()).ready[0]];
    }

    /** Tokens come back for a port that has an entry. */
    method ReturnPortTokens(port: Port, count: nat)
      requires Valid() && port in tokensMap
      modifies activeReaders, activeReaders.nodes, tokensMap.Values
      ensures Valid() && View() == ReturnTokens(old(View()), port, count)
      ensures Grows()
    {
      ghost var was := View();
      SetEntryAgrees(was, port, ReturnTokens(was, port, count).entries[port]);
      var e := tokensMap[port];
      var wasReady := e.Ready();
      Store(port, PortState(e.isReading, e.tokenCount + count));
      var isReady := e.Ready();
      if !wasReady && isReady {
        AddReader(e);
      }
    }

    /** Posts to every port once, in the map's iteration order, and charges each a token. */
    method NotifyAllDartPorts(order: seq<Port>) returns (posted: seq<Port>)
      requires Valid() && Distinct(order) && forall p :: p in order <==> p in tokensMap
      modifies activeReaders, activeReaders.nodes, tokensMap.Values
      ensures Valid() && View() == NotifyAll(old(View())) && posted == order
      ensures Grows()
    {
      ghost var was := View();
      NotifyNone(was);
      posted := [];
      ghost var done: set<Port> := {};
      for i := 0 to |order|
        invariant posted == order[..i] && Marked(done, order, i)
        invariant activeReaders.Valid() && Filed() && View() == NotifySome(was, done)
        invariant forall k :: 0 <= k < |activeReaders.nodes| ==> activeReaders.nodes[k] in old(activeReaders.nodes)
      {
        var p := order[i];
        MarkNext(done, order, i);
        NotifyEntry(p, was, done);
        posted := posted + [p];
        done := done + {p};
      }
      MarkedAll(done, order, was.entries);
      NotifyAllAgrees(was);
    }

    /** One entry's share of a broadcast. */
    method NotifyEntry(p: Port, ghost was: Multi, ghost done: set<Port>)
      requires p in tokensMap && p !in done && activeReaders.Valid() && Filed()
      requires Agrees(was) && View() == NotifySome(was, done)
      modifies activeReaders, activeReaders.nodes, tokensMap[p]
      ensures activeReaders.Valid() && Filed() && View() == NotifySome(was, done + {p})
      ensures forall i :: 0 <= i < |activeReaders.nodes| ==> activeReaders.nodes[i] in old(activeReaders.nodes)
    {
      assert p in View().entries && p in was.entries && View().entries[p] == was.entries[p];
      NotifyOneMore(was, done, p);
      var e := tokensMap[p];
      var wasReady := e.Ready();
      Store(p, PortState(e.isReading, e.tokenCount - 1));
      if wasReady && e.tokenCount <= 0 {
        RemoveReader(e);
      }
      assert View().entries == NotifySome(was, done + {p}).entries;
    }

    method GetMask() returns (mask: Mask)
      requires Valid()
      ensures mask == MultiMask(View())
    {
      mask := if activeReaders.head != null then READ_ONLY else NO_EVENTS;
      assert |View().ready| == |activeReaders.nodes|;
    }

    /** Empties the map and the list. */
    method RemoveAllPorts(order: seq<Port>)
      requires Valid() && forall p :: p in order <==> p in tokensMap
      modifies this, activeReaders, activeReaders.nodes
      ensures Valid() && View() == NEW_MULTI
    {
      RemoveReaders(order);
      activeReaders.RemoveAll();
      tokensMap := map[];
      assert View() == NEW_MULTI;
    }

    method RemoveReaders(order: seq<Port>)
      requires activeReaders.Valid() && Filed() && forall p :: p in order ==> p in tokensMap
      modifies activeReaders, activeReaders.nodes
      ensures activeReaders.Valid()
      ensures forall k :: 0 <= k < |activeReaders.nodes| ==> activeReaders.nodes[k] in old(activeReaders.nodes)
    {
      for i := 0 to |order|
        invariant activeReaders.Valid() && Filed()
        invariant forall k :: 0 <= k < |activeReaders.nodes| ==> activeReaders.nodes[k] in old(activeReaders.nodes)
      {
        var p := order[i];
        assert p in order;
        RemoveReader(tokensMap[p]);
      }
    }
  }

  /** `done` are the first `i` ports of `order`. */
  ghost predicate Marked(done: set<Port>, order: seq<Port>, i: nat) {
    i <= |order| && forall p :: p in done <==> p in order[..i]
  }

  lemma MarkNext(done: set<Port>, order: seq<Port>, i: nat)
    requires Distinct(order) && i < |order| && Marked(done, order, i)
    ensures order[i] in order && order[i] !in done && Marked(done + {order[i]}, order, i + 1)
    ensures order[..i + 1] == order[..i] + [order[i]]
  {
    var p := order[i];
    assert forall k :: 0 <= k < i ==> order[..i][k] == order[k];
    assert p in done <==> p in order[..i];
    assert order[..i + 1] == order[..i] + [p];
  }

  lemma MarkedAll(done: set<Port>, order: seq<Port>, entries: map<Port, PortState>)
    requires Marked(done, order, |order|) && forall p :: p in order <==> p in entries
    ensures done == entries.Keys && order[..|order|] == order
  {
    assert order[..|order|] == order;
    forall p
      ensures p in done <==> p in entries.Keys
    {
      assert p in order <==> p in entries;
    }
  }

  lemma NotifyNone(m: Multi)
    ensures NotifySome(m, {}) == m
  {
    assert LastToken(m.entries, {}) == {};
    WithoutNothing(m.ready);
    assert NotifySome(m, {}).entries == m.entries;
  }

  lemma {:induction false} WithoutNothing(s: seq<Port>)
    ensures Without(s, {}) == s
  {
    if s != [] {
      WithoutNothing(s[1..]);
    }
  }

  /** What one more port's payment does to the queue: it leaves if ready and down to its last token. */
  lemma NotifyOneMore(m: Multi, done: set<Port>, p: Port)
    requires Agrees(m) && p in m.entries && p !in done
    ensures NotifySome(m, done + {p}).ready ==
            if IsReady(m.entries[p]) && m.entries[p].tokens <= 1 then RemoveFirst(NotifySome(m, done).ready, p)
            else NotifySome(m, done).ready
  {
    var out := LastToken(m.entries, done);
    assert p in m.ready <==> PortReady(m, p);
    if m.entries[p].tokens <= 1 {
      assert LastToken(m.entries, done + {p}) == out + {p};
      if IsReady(m.entries[p]) {
        WithoutOneMore(m.ready, out, p);
      } else {
        WithoutAbsent(m.ready, out, p);
      }
    } else {
      assert LastToken(m.entries, done + {p}) == out;
    }
  }
}
