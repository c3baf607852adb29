/**
 * The event loop as its clients see it.
 *
 * Clients only know what they asked for.  Here that is a map from descriptors to
 * the ports and masks asked for, computed from the messages alone: no events, no
 * epoll set, no pointers, no tokens.  Every run of the loop keeps to it, and what
 * is registered with the kernel is what follows from it and from the tokens:
 * exactly the events that some port wants and has a token for.
 */
module Clients {
  import opened Backpressure
  import opened EventLoop

  /** What has been asked for on a descriptor. */
  datatype Client = Client(listening: bool, wanted: map<Port, Mask>)

  type Requests = map<Fd, Client>

  /** What a message asks for, on top of what was asked for before. */
  function Asked(c: Requests, msg: Message): Requests {
    var k := if msg.fd in c then c[msg.fd] else Client(msg.listening, map[]);
    match msg
    case ShutdownHalf(fd, _) => c[fd := k]
    case ReturnToken(fd, _, _, _, _) => c[fd := k]
    case SetEventMask(fd, _, port, mask, _) => c[fd := k.(wanted := k.wanted[port := mask])]
    case CloseSocket(fd, _, port, last, _) =>
      if !k.listening || last then c - {fd}
      else if port == ILLEGAL_PORT then c[fd := k]
      else c[fd := k.(wanted := k.wanted - {port})]
  }

  function AskedAll(c: Requests, msgs: seq<Message>): Requests
    decreases |msgs|
  {
    if msgs == [] then c else Asked(AskedAll(c, msgs[..|msgs| - 1]), msgs[|msgs| - 1])
  }

  /** What the messages of a run ask for. */
  function RequestsOf(ts: seq<Turn>): Requests
    decreases |ts|
  {
    if ts == [] then map[] else AskedAll(RequestsOf(ts[..|ts| - 1]), ts[|ts| - 1].msgs)
  }

  // ---------- What the loop's state says ----------

  function ClientOf(d: Descriptor): Client {
    match d
    case OnePort(s) => Client(false, if s.port == ILLEGAL_PORT then map[] else map[s.port := s.mask])
    case ManyPorts(m) => Client(true, map p | p in m.entries :: if m.entries[p].reading then READ_ONLY else NO_EVENTS)
  }

  function View(s: State): Requests {
    map fd | fd in s.sockets && s.sockets[fd] in s.heap :: ClientOf(s.heap[s.sockets[fd]].desc)
  }

  /** Only what one descriptor holds differs. */
  lemma SetDescShows(s: State, ptr: Ptr, d: Descriptor)
    requires Linked(s) && ptr in s.heap
    ensures View(SetDesc(s, ptr, d)) == View(s)[s.heap[ptr].fd := ClientOf(d)]
    ensures s.heap[ptr].fd in View(s) && View(s)[s.heap[ptr].fd] == ClientOf(s.heap[ptr].desc)
    ensures Linked(SetDesc(s, ptr, d))
  {
  }

  lemma NotifyingShows(d: Descriptor)
    ensures ClientOf(Serve(d)) == ClientOf(d) && ClientOf(Broadcast(d)) == ClientOf(d)
  {
  }

  /** Registrations are not the clients' business, even when one is refused. */
  lemma AddShows(s: State, ptr: Ptr, accepted: bool)
    requires Linked(s) && ptr in s.heap
    ensures var t := AddToEpoll(s, ptr, accepted);
            View(t) == View(s) && t.sockets == s.sockets && t.heap.Keys == s.heap.Keys
  {
    var d := Broadcast(s.heap[ptr].desc);
    NotifyingShows(s.heap[ptr].desc);
    SetDescShows(s, ptr, d);
    SameEntry(View(s), s.heap[ptr].fd);
    if accepted && s.heap[ptr].fd !in s.epoll {
      EpollShows(s, AddToEpoll(s, ptr, accepted).epoll);
    } else {
      RefusedShows(SetDesc(s, ptr, d), AddToEpoll(s, ptr, accepted));
    }
  }

  lemma EpollShows(s: State, epoll: map<Fd, Registration>)
    ensures View(s.(epoll := epoll)) == View(s)
  {
  }

  lemma RefusedShows(s: State, t: State)
    requires t.heap == s.heap && t.sockets == s.sockets
    ensures View(t) == View(s)
  {
  }

  lemma SameEntry(c: Requests, fd: Fd)
    requires fd in c
    ensures c[fd := c[fd]] == c
  {
  }

  lemma UpdateEpollShows(s: State, ptr: Ptr, oldMask: Mask, accepted: bool)
    requires Linked(s) && ptr in s.heap
    ensures var t := UpdateEpoll(s, ptr, oldMask, accepted);
            View(t) == View(s) && t.sockets == s.sockets && t.heap.Keys == s.heap.Keys
  {
    var newMask, removed := MaskOf(s.heap[ptr].desc), RemoveFromEpoll(s, s.heap[ptr].fd);
    EpollShows(s, removed.epoll);
    if oldMask == NO_EVENTS && newMask != NO_EVENTS {
      AddShows(s, ptr, accepted);
    } else if oldMask != NO_EVENTS && newMask != NO_EVENTS && oldMask != newMask {
      AddShows(removed, ptr, accepted);
    }
  }

  lemma LogShows(s: State, r: Record)
    ensures View(Log(s, r)) == View(s)
  {
  }

  /** Nor are events. */
  lemma EventShows(s: State, e: Event)
    requires Inv(s) && Registered(s, e.ptr) && e.ptr in s.heap
    ensures View(HandleEvent(s, e)) == View(s)
  {
    var d, fd := s.heap[e.ptr].desc, s.heap[e.ptr].fd;
    NotifyingShows(d);
    assert View(s)[fd := View(s)[fd]] == View(s) by {
      SetDescShows(s, e.ptr, d);
    }
    match GetPollEvents(e.kernel)
    case NoEvent =>
    case ErrorEvent => ChangeShows(s, e.ptr, Broadcast(d), PostedAll(e.ptr, PortsOf(d)), e.accepted);
    case IoEvent(_, _, _) => ChangeShows(s, e.ptr, Serve(d), Posted(e.ptr, ServedPort(d)), e.accepted);
  }

  /** A descriptor changes, with a record of it, and its registration is brought up to date. */
  lemma ChangeShows(s: State, ptr: Ptr, d: Descriptor, r: Record, accepted: bool)
    requires Inv(s) && ptr in s.heap && r.ptr == ptr
    ensures View(UpdateEpoll(Log(SetDesc(s, ptr, d), r), ptr, MaskOf(s.heap[ptr].desc), accepted)) ==
            View(s)[s.heap[ptr].fd := ClientOf(d)]
  {
    SetDescShows(s, ptr, d);
    LogShows(SetDesc(s, ptr, d), r);
    LogLinks(SetDesc(s, ptr, d), r);
    UpdateEpollShows(Log(SetDesc(s, ptr, d), r), ptr, MaskOf(s.heap[ptr].desc), accepted);
  }

  lemma QuietChangeShows(s: State, ptr: Ptr, d: Descriptor, accepted: bool)
    requires Inv(s) && ptr in s.heap
    ensures var t := UpdateEpoll(SetDesc(s, ptr, d), ptr, MaskOf(s.heap[ptr].desc), accepted);
            && View(t) == View(s)[s.heap[ptr].fd := ClientOf(d)]
            && t.sockets == s.sockets && t.heap.Keys == s.heap.Keys
  {
    SetDescShows(s, ptr, d);
    UpdateEpollShows(SetDesc(s, ptr, d), ptr, MaskOf(s.heap[ptr].desc), accepted);
  }

  lemma {:induction false} BatchShows(s: State, es: seq<Event>)
    requires Inv(s) && BatchPossible(s, es)
    ensures View(HandleBatch(s, es)) == View(s)
    decreases |es|
  {
    if es != [] {
      var n := |es| - 1;
      assert BatchPossible(s, es[..n]);
      BatchShows(s, es[..n]);
      BatchKeeps(s, es[..n], 0);
      EventsDelivered(s, es, n);
      EventShows(HandleBatch(s, es[..n]), es[n]);
    }
  }

  // ---------- Messages ----------

  lemma WithDescriptorShows(s: State, fd: Fd, listening: bool)
    requires Linked(s)
    ensures View(WithDescriptor(s, fd, listening)) ==
            if fd in View(s) then View(s) else View(s)[fd := Client(listening, map[])]
  {
    if fd !in s.sockets {
      NewShows(s, fd, Info(fd, if listening then ManyPorts(NEW_MULTI) else OnePort(NEW_SINGLE)), listening);
    }
  }

  lemma NewShows(s: State, fd: Fd, info: Info, listening: bool)
    requires Linked(s) && fd !in s.sockets && ClientOf(info.desc) == Client(listening, map[])
    ensures View(s.(heap := s.heap[s.next := info], sockets := s.sockets[fd := s.next], next := s.next + 1)) ==
            View(s)[fd := Client(listening, map[])]
  {
    assert s.next !in s.heap;
  }

  lemma SetMaskShows(d: Descriptor, port: Port, mask: Mask)
    requires port != ILLEGAL_PORT
    requires d.OnePort? ==> d.single.port == ILLEGAL_PORT || d.single.port == port
    requires d.ManyPorts? ==> mask == READ_ONLY || mask == NO_EVENTS
    ensures ClientOf(SetMask(d, port, mask)) == ClientOf(d).(wanted := ClientOf(d).wanted[port := mask])
  {
  }

  lemma ReturnShows(d: Descriptor, port: Port, count: nat)
    ensures ClientOf(Return(d, port, count)) == ClientOf(d)
  {
  }

  lemma RemoveShows(d: Descriptor, port: Port)
    requires d.ManyPorts?
    ensures ClientOf(Remove(d, port)) == ClientOf(d).(wanted := ClientOf(d).wanted - {port})
  {
  }

  lemma CloseShows(s: State, msg: Message)
    requires Inv(s) && msg.CloseSocket? && msg.fd in s.sockets
    ensures View(HandleMessage(s, msg)) == Asked(View(s), msg)
  {
    var ptr := s.sockets[msg.fd];
    var d := s.heap[ptr].desc;
    if msg.port == ILLEGAL_PORT {
      NoPortShows(s, ptr, msg);
    } else {
      QuietChangeShows(s, ptr, Remove(d, msg.port), msg.accepted);
      var t := UpdateEpoll(SetDesc(s, ptr, Remove(d, msg.port)), ptr, MaskOf(d), msg.accepted);
      ClosedShows(s, t, ptr, msg, Remove(d, msg.port));
    }
  }

  /** Without a port nothing but the registration is looked at. */
  lemma NoPortShows(s: State, ptr: Ptr, msg: Message)
    requires Inv(s) && msg.CloseSocket? && msg.fd in s.sockets && ptr == s.sockets[msg.fd] && msg.port == ILLEGAL_PORT
    ensures View(HandleMessage(s, msg)) == Asked(View(s), msg)
  {
    var d := s.heap[ptr].desc;
    UpdateEpollShows(s, ptr, MaskOf(d), msg.accepted);
    SetDescShows(s, ptr, d);
    SameEntry(View(s), msg.fd);
    ClosedShows(s, UpdateEpoll(s, ptr, MaskOf(d), msg.accepted), ptr, msg, d);
  }

  /** The descriptor goes for good, or stays without the port. */
  lemma ClosedShows(s: State, t: State, ptr: Ptr, msg: Message, d': Descriptor)
    requires Linked(s) && ptr in s.heap && msg.CloseSocket? && s.heap[ptr].fd == msg.fd
    requires t.sockets == s.sockets && t.heap.Keys == s.heap.Keys && View(t) == View(s)[msg.fd := ClientOf(d')]
    requires d' == if msg.port == ILLEGAL_PORT then s.heap[ptr].desc else Remove(s.heap[ptr].desc, msg.port)
    ensures var last := s.heap[ptr].desc.OnePort? || msg.last;
            View(if last then t.(sockets := t.sockets - {msg.fd}, heap := t.heap - {ptr}) else t) == Asked(View(s), msg)
  {
    var d := s.heap[ptr].desc;
    SetDescShows(s, ptr, d);
    if d.OnePort? || msg.last {
      GoneShows(s, t, ptr);
      Forgotten(View(s), msg.fd, ClientOf(d'));
    } else if msg.port != ILLEGAL_PORT {
      RemoveShows(d, msg.port);
    }
  }

  lemma Forgotten(c: Requests, fd: Fd, k: Client)
    ensures c[fd := k] - {fd} == c - {fd}
  {
  }

  lemma GoneShows(s: State, t: State, ptr: Ptr)
    requires Linked(s) && ptr in s.heap && t.sockets == s.sockets && t.heap.Keys == s.heap.Keys
    ensures var fd := s.heap[ptr].fd;
            View(t.(sockets := t.sockets - {fd}, heap := t.heap - {ptr})) == View(t) - {fd}
  {
    var fd := s.heap[ptr].fd;
    assert forall f :: f in s.sockets && f != fd ==> s.sockets[f] != ptr;
  }

  lemma KnownMessageShows(s: State, msg: Message)
    requires Inv(s) && msg.fd in s.sockets && MessageOk(s, msg)
    ensures View(HandleMessage(s, msg)) == Asked(View(s), msg)
  {
    var ptr := s.sockets[msg.fd];
    var d := s.heap[ptr].desc;
    assert View(s)[msg.fd] == ClientOf(d) && View(s)[msg.fd := ClientOf(d)] == View(s);
    match msg
    case ShutdownHalf(_, _) =>
    case CloseSocket(_, _, _, _, _) => CloseShows(s, msg);
    case ReturnToken(_, _, port, count, accepted) =>
      ReturnShows(d, port, count);
      ChangeShows(s, ptr, Return(d, port, count), Returned(ptr, port, count), accepted);
    case SetEventMask(_, _, port, mask, accepted) =>
      SetMaskShows(d, port, mask);
      if HasPort(d, port) {
        QuietChangeShows(s, ptr, SetMask(d, port, mask), accepted);
      } else {
        ChangeShows(s, ptr, SetMask(d, port, mask), Joined(ptr, port), accepted);
      }
  }

  /** Every command does to the clients' view what its message asks for. */
  lemma MessageShows(s: State, msg: Message)
    requires Inv(s) && MessageOk(s, msg)
    ensures View(HandleMessage(s, msg)) == Asked(View(s), msg)
  {
    var t := WithDescriptor(s, msg.fd, msg.listening);
    WithDescriptorKeeps(s, msg.fd, msg.listening);
    WithDescriptorShows(s, msg.fd, msg.listening);
    assert HandleMessage(s, msg) == HandleMessage(t, msg) && MessageOk(t, msg);
    KnownMessageShows(t, msg);
    assert msg.fd in View(s) <==> msg.fd in s.sockets;
    AskedAgain(View(s), msg);
  }

  lemma AskedAgain(c: Requests, msg: Message)
    ensures msg.fd !in c ==> Asked(c[msg.fd := Client(msg.listening, map[])], msg) == Asked(c, msg)
  {
  }

  lemma {:induction false} MessagesShow(s: State, msgs: seq<Message>)
    requires Inv(s) && MessagesOk(s, msgs)
    ensures View(HandleMessages(s, msgs)) == AskedAll(View(s), msgs)
    decreases |msgs|
  {
    if msgs != [] {
      var n := |msgs| - 1;
      EarlierMessages(s, msgs, n);
      MessagesShow(s, msgs[..n]);
      MessagesKeep(s, msgs[..n]);
      MessageShows(HandleMessages(s, msgs[..n]), msgs[n]);
    }
  }

  // ---------- Runs ----------

  /** After every run the loop holds exactly what the messages asked for, whatever events came in between. */
  lemma {:induction false} RunShows(ts: seq<Turn>)
    requires RunPossible(ts)
    ensures View(Run(ts)) == RequestsOf(ts)
    decreases |ts|
  {
    if ts != [] {
      var n := |ts| - 1;
      EarlierRun(ts, n);
      EveryRun(ts[..n]);
      RunShows(ts[..n]);
      var s := Run(ts[..n]);
      BatchShows(s, ts[n].events);
      BatchKeeps(s, ts[n].events, 0);
      MessagesShow(HandleBatch(s, ts[n].events), ts[n].msgs);
    }
  }

  /** The tokens a port has: those it started with, less events posted, plus tokens returned. */
  function Credit(c: Client, log: seq<Record>, ptr: Ptr, p: Port): int {
    (if c.listening then 4 else 16) + Balance(log, ptr, p)
  }

  /** A port that asked for something and has a token for it. */
  predicate Served(c: Client, log: seq<Record>, ptr: Ptr, p: Port) {
    p in c.wanted && Credit(c, log, ptr, p) > 0
  }

  ghost predicate WantsRead(c: Client, log: seq<Record>, ptr: Ptr) {
    exists p :: Served(c, log, ptr, p) && c.wanted[p].read
  }

  ghost predicate WantsWrite(c: Client, log: seq<Record>, ptr: Ptr) {
    exists p :: Served(c, log, ptr, p) && c.wanted[p].write
  }

  lemma MaskIsInterest(s: State, ptr: Ptr)
    requires Inv(s) && ptr in s.heap
    ensures var d := s.heap[ptr].desc;
            MaskOf(d) == Mask(WantsRead(ClientOf(d), s.log, ptr), WantsWrite(ClientOf(d), s.log, ptr))
  {
    var d := s.heap[ptr].desc;
    var c := ClientOf(d);
    assert DescriptorOk(d) && Accounted(s, ptr);
    forall p
      ensures p in c.wanted <==> HasPort(d, p)
      ensures p in c.wanted ==> Credit(c, s.log, ptr, p) == TokensOf(d, p)
    {
    }
    match d
    case OnePort(single) => SingleInterest(single, s.log, ptr);
    case ManyPorts(multi) => MultiInterest(multi, s.log, ptr);
  }

  lemma SingleInterest(single: Single, log: seq<Record>, ptr: Ptr)
    requires SingleOk(single)
    requires single.port != ILLEGAL_PORT ==> Credit(ClientOf(OnePort(single)), log, ptr, single.port) == single.tokens
    ensures var c := ClientOf(OnePort(single));
            SingleMask(single) == Mask(WantsRead(c, log, ptr), WantsWrite(c, log, ptr))
  {
    var c := ClientOf(OnePort(single));
    if single.port != ILLEGAL_PORT && single.tokens > 0 {
      assert Served(c, log, ptr, single.port);
    }
  }

  lemma MultiInterest(multi: Multi, log: seq<Record>, ptr: Ptr)
    requires Agrees(multi)
    requires forall p :: p in multi.entries ==> Credit(ClientOf(ManyPorts(multi)), log, ptr, p) == multi.entries[p].tokens
    ensures var c := ClientOf(ManyPorts(multi));
            MultiMask(multi) == Mask(WantsRead(c, log, ptr), WantsWrite(c, log, ptr))
  {
    var c := ClientOf(ManyPorts(multi));
    if multi.ready != [] {
      var p := multi.ready[0];
      assert PortReady(multi, p);
      assert Served(c, log, ptr, p) && c.wanted[p].read;
    }
    forall p | Served(c, log, ptr, p)
      ensures c.wanted[p].read ==> p in multi.ready
      ensures !c.wanted[p].write
    {
      assert PortReady(multi, p) <==> p in multi.ready;
    }
  }

  /**
   * After every run a descriptor is registered for reading exactly when some port asked to read and has
   * a token, and so for writing; and, unless adding it failed once, it is registered exactly when
   * there is such a port.
   */
  lemma InterestExact(ts: seq<Turn>, fd: Fd)
    requires RunPossible(ts)
    ensures var s, requests := Run(ts), RequestsOf(ts);
            && (fd in requests <==> fd in s.sockets)
            && (fd in s.epoll ==> fd in requests)
            && (fd in requests ==>
                  var c, ptr := requests[fd], s.sockets[fd];
                  var interest := Mask(WantsRead(c, s.log, ptr), WantsWrite(c, s.log, ptr));
                  && (fd in s.epoll ==> s.epoll[fd] == Registration(ptr, interest, !c.listening) && interest != NO_EVENTS)
                  && (ptr !in s.failed ==> (fd in s.epoll <==> interest != NO_EVENTS)))
  {
    EveryRun(ts);
    RunShows(ts);
    var s := Run(ts);
    assert fd in s.epoll ==> RegistrationOk(s, fd);
    if fd in s.sockets {
      RegistrationsExact(ts, fd);
      MaskIsInterest(s, s.sockets[fd]);
    }
  }
}
