/**
 * The socket half of the Linux event loop: descriptors on the heap, the map
 * from file descriptor to descriptor, and the epoll set that caches each
 * descriptor's mask together with a raw pointer to it.
 *
 * One turn of the loop handles a batch of kernel events and then the messages
 * in the interrupt pipe.  Adding to the epoll set may fail at any time.  The
 * invariant proved for every run ties the pieces together, and from it follow
 * that no event ever names a freed descriptor, that every event reaches a real
 * port, and that tokens are conserved.
 */
module EventLoop {
  import opened Backpressure

  type Fd = nat
  type Ptr = nat

  // ---------- Descriptors ----------

  datatype Descriptor = OnePort(single: Single) | ManyPorts(multi: Multi)

  function MaskOf(d: Descriptor): Mask {
    match d
    case OnePort(s) => SingleMask(s)
    case ManyPorts(m) => MultiMask(m)
  }

  predicate HasPort(d: Descriptor, p: Port) {
    match d
    case OnePort(s) => s.port == p && p != ILLEGAL_PORT
    case ManyPorts(m) => p in m.entries
  }

  function TokensOf(d: Descriptor, p: Port): int
    requires HasPort(d, p)
  {
    match d
    case OnePort(s) => s.tokens
    case ManyPorts(m) => m.entries[p].tokens
  }

  function TokenLimit(d: Descriptor): int {
    if d.OnePort? then SINGLE_TOKENS else LISTENING_TOKENS
  }

  function PortsOf(d: Descriptor): set<Port> {
    match d
    case OnePort(s) => if s.port == ILLEGAL_PORT then {} else {s.port}
    case ManyPorts(m) => m.entries.Keys
  }

  /** `NextNotifyDartPort`: the port served and the descriptor after. */
  function ServedPort(d: Descriptor): Port {
    match d
    case OnePort(s) => s.port
    case ManyPorts(m) => NextPort(m)
  }

  function Serve(d: Descriptor): Descriptor {
    match d
    case OnePort(s) => OnePort(s.(tokens := s.tokens - 1))
    case ManyPorts(m) => ManyPorts(Notify(m))
  }

  /** `NotifyAllDartPorts`. */
  function Broadcast(d: Descriptor): Descriptor {
    match d
    case OnePort(s) => OnePort(s.(tokens := s.tokens - 1))
    case ManyPorts(m) => ManyPorts(NotifyAll(m))
  }

  function SetMask(d: Descriptor, p: Port, mask: Mask): Descriptor {
    match d
    case OnePort(s) => OnePort(s.(port := p, mask := mask))
    case ManyPorts(m) => ManyPorts(SetPortAndMask(m, p, mask == READ_ONLY))
  }

  function Return(d: Descriptor, p: Port, count: nat): Descriptor {
    match d
    case OnePort(s) => OnePort(s.(tokens := s.tokens + count))
    case ManyPorts(m) => ManyPorts(ReturnTokens(m, p, count))
  }

  function Remove(d: Descriptor, p: Port): Descriptor {
    match d
    case OnePort(s) => OnePort(s.(port := ILLEGAL_PORT, mask := NO_EVENTS))
    case ManyPorts(m) => ManyPorts(RemovePort(m, p))
  }

  // ---------- The loop's state ----------

  datatype Info = Info(fd: Fd, desc: Descriptor)

  /** An epoll registration: the raw pointer it carries and what it asks for. */
  datatype Registration = Registration(ptr: Ptr, events: Mask, edge: bool)

  /** What was told to clients and what they gave back, oldest first. */
  datatype Record =
    | Joined(ptr: Ptr, port: Port)
    | Posted(ptr: Ptr, port: Port)
    | PostedAll(ptr: Ptr, ports: set<Port>)
    | Returned(ptr: Ptr, port: Port, count: nat)

  datatype State = State(
    heap: map<Ptr, Info>,
    sockets: map<Fd, Ptr>,
    epoll: map<Fd, Registration>,
    next: Ptr,
    /** Descriptors that some attempt to add to the epoll set failed for. */
    failed: set<Ptr>,
    log: seq<Record>)

  const INIT := State(map[], map[], map[], 0, {}, [])

  function SetDesc(s: State, ptr: Ptr, d: Descriptor): State
    requires ptr in s.heap
  {
    s.(heap := s.heap[ptr := s.heap[ptr].(desc := d)])
  }

  function Log(s: State, r: Record): State {
    s.(log := s.log + [r])
  }

  // ---------- Registration ----------

  function RemoveFromEpoll(s: State, fd: Fd): State {
    s.(epoll := s.epoll - {fd})
  }

  /** Adding fails when the kernel says so, or when the descriptor is registered already. */
  function AddToEpoll(s: State, ptr: Ptr, accepted: bool): State
    requires ptr in s.heap
  {
    var info := s.heap[ptr];
    if accepted && info.fd !in s.epoll then
      s.(epoll := s.epoll[info.fd := Registration(ptr, MaskOf(info.desc), info.desc.OnePort?)])
    else
      Log(SetDesc(s, ptr, Broadcast(info.desc)).(failed := s.failed + {ptr}), PostedAll(ptr, PortsOf(info.desc)))
  }

  function UpdateEpoll(s: State, ptr: Ptr, oldMask: Mask, accepted: bool): State
    requires ptr in s.heap
  {
    var newMask := MaskOf(s.heap[ptr].desc);
    if oldMask != NO_EVENTS && newMask == NO_EVENTS then RemoveFromEpoll(s, s.heap[ptr].fd)
    else if oldMask == NO_EVENTS && newMask != NO_EVENTS then AddToEpoll(s, ptr, accepted)
    else if oldMask != NO_EVENTS && newMask != NO_EVENTS && oldMask != newMask then
      AddToEpoll(RemoveFromEpoll(s, s.heap[ptr].fd), ptr, accepted)
    else s
  }

  // ---------- Kernel events ----------

  /** The bits of a kernel event the loop looks at; `hup` is EPOLLHUP or EPOLLRDHUP. */
  datatype KernelEvents = KernelEvents(read: bool, write: bool, err: bool, hup: bool)

  datatype EventMask = NoEvent | ErrorEvent | IoEvent(read: bool, write: bool, close: bool)

  function GetPollEvents(k: KernelEvents): EventMask {
    if k.err then (if k.read then ErrorEvent else NoEvent)
    else if k.read || k.write || k.hup then IoEvent(k.read, k.write, k.hup)
    else NoEvent
  }

  /** An entry of the event array: the registered pointer, and whether a re-add would be accepted. */
  datatype Event = Event(ptr: Ptr, kernel: KernelEvents, accepted: bool)

  function HandleEvent(s: State, e: Event): State
    requires e.ptr in s.heap
  {
    var d := s.heap[e.ptr].desc;
    match GetPollEvents(e.kernel)
    case NoEvent => s
    case ErrorEvent =>
      UpdateEpoll(Log(SetDesc(s, e.ptr, Broadcast(d)), PostedAll(e.ptr, PortsOf(d))), e.ptr, MaskOf(d), e.accepted)
    case IoEvent(_, _, _) =>
      UpdateEpoll(Log(SetDesc(s, e.ptr, Serve(d)), Posted(e.ptr, ServedPort(d))), e.ptr, MaskOf(d), e.accepted)
  }

  // ---------- What an event comes to, by the kernel's bits ----------

  /** A descriptor's state with other contents for `ptr` and one record more. */
  function Told(s: State, ptr: Ptr, d: Descriptor, r: Record): State
    requires ptr in s.heap
  {
    s.(heap := s.heap[ptr := Info(s.heap[ptr].fd, d)], log := s.log + [r])
  }

  /** Input, output or a hang-up without an error is told to the single port, for one token. */
  lemma SingleIo(s: State, e: Event)
    requires e.ptr in s.heap && s.heap[e.ptr].desc.OnePort?
    requires !e.kernel.err && (e.kernel.read || e.kernel.write || e.kernel.hup)
    ensures var d := s.heap[e.ptr].desc;
            var paid := OnePort(Single(d.single.port, d.single.tokens - 1, d.single.mask));
            && HandleEvent(s, e) == UpdateEpoll(Told(s, e.ptr, paid, Posted(e.ptr, d.single.port)), e.ptr, MaskOf(d), e.accepted)
            && s.log + [Posted(e.ptr, d.single.port)] <= HandleEvent(s, e).log
  {
  }

  /** Of the ports of a listening descriptor it is told to the one at the head, which alone pays and goes last or leaves. */
  lemma ListeningIo(s: State, e: Event, p: Port)
    requires e.ptr in s.heap && s.heap[e.ptr].desc.ManyPorts?
    requires var m := s.heap[e.ptr].desc.multi; m.ready != [] && p == m.ready[0] && p in m.entries
    requires !e.kernel.err && (e.kernel.read || e.kernel.write || e.kernel.hup)
    ensures var d := s.heap[e.ptr].desc;
            var PortState(reading, tokens) := d.multi.entries[p];
            var paid := ManyPorts(Multi(d.multi.entries[p := PortState(reading, tokens - 1)],
                                        d.multi.ready[1..] + if tokens > 1 then [p] else []));
            && HandleEvent(s, e) == UpdateEpoll(Told(s, e.ptr, paid, Posted(e.ptr, p)), e.ptr, MaskOf(d), e.accepted)
            && s.log + [Posted(e.ptr, p)] <= HandleEvent(s, e).log
  {
    var m := s.heap[e.ptr].desc.multi;
    assert m.ready[1..] + [] == m.ready[1..];
  }

  /** The ports of a descriptor, read off its contents. */
  ghost predicate AllPorts(d: Descriptor, ports: set<Port>) {
    forall p :: p in ports <==> if d.OnePort? then p == d.single.port && p != 0 else p in d.multi.entries
  }

  /** Every port of a descriptor has paid a token. */
  ghost predicate AllPaid(d: Descriptor, paid: Descriptor) {
    match d
    case OnePort(x) => paid == OnePort(Single(x.port, x.tokens - 1, x.mask))
    case ManyPorts(m) =>
      && paid.ManyPorts? && paid.multi.entries.Keys == m.entries.Keys
      && (forall p :: p in m.entries ==> paid.multi.entries[p] == PortState(m.entries[p].reading, m.entries[p].tokens - 1))
      && (forall p :: p in paid.multi.ready <==> p in m.ready && !(p in m.entries && m.entries[p].tokens <= 1))
  }

  lemma BroadcastIs(d: Descriptor)
    ensures AllPorts(d, PortsOf(d)) && AllPaid(d, Broadcast(d))
  {
  }

  /** An error on a readable descriptor is told to all of its ports, for a token each. */
  lemma ErrorIo(s: State, e: Event) returns (paid: Descriptor, ports: set<Port>)
    requires e.ptr in s.heap && e.kernel.err && e.kernel.read
    ensures var d := s.heap[e.ptr].desc;
            && AllPorts(d, ports) && AllPaid(d, paid)
            && HandleEvent(s, e) == UpdateEpoll(Told(s, e.ptr, paid, PostedAll(e.ptr, ports)), e.ptr, MaskOf(d), e.accepted)
            && s.log + [PostedAll(e.ptr, ports)] <= HandleEvent(s, e).log
  {
    var d := s.heap[e.ptr].desc;
    paid, ports := Broadcast(d), PortsOf(d);
    BroadcastIs(d);
  }

  /** An error on a descriptor that is not readable, or no bit at all, changes nothing. */
  lemma NoIo(s: State, e: Event)
    requires e.ptr in s.heap
    requires if e.kernel.err then !e.kernel.read else !e.kernel.read && !e.kernel.write && !e.kernel.hup
    ensures HandleEvent(s, e) == s
  {
  }

  /** An add that is refused leaves the epoll set alone and is told to all ports; another registers the mask. */
  lemma AddIs(s: State, ptr: Ptr, accepted: bool) returns (paid: Descriptor, ports: set<Port>)
    requires ptr in s.heap
    ensures var Info(fd, d) := s.heap[ptr];
            && AllPorts(d, ports) && AllPaid(d, paid)
            && AddToEpoll(s, ptr, accepted) ==
               if accepted && fd !in s.epoll then s.(epoll := s.epoll[fd := Registration(ptr, MaskOf(d), d.OnePort?)])
               else Told(s, ptr, paid, PostedAll(ptr, ports)).(failed := s.failed + {ptr})
  {
    var d := s.heap[ptr].desc;
    paid, ports := Broadcast(d), PortsOf(d);
    BroadcastIs(d);
  }

  function HandleBatch(s: State, es: seq<Event>): State
    decreases |es|
  {
    if es == [] then s
    else
      var before := HandleBatch(s, es[..|es| - 1]);
      if es[|es| - 1].ptr in before.heap then HandleEvent(before, es[|es| - 1]) else before
  }

  /** The kernel reports registered descriptors, each at most once in a batch. */
  ghost predicate BatchPossible(s: State, es: seq<Event>) {
    && (forall i :: 0 <= i < |es| ==> Registered(s, es[i].ptr))
    && forall i, j :: 0 <= i < j < |es| ==> es[i].ptr != es[j].ptr
  }

  ghost predicate Registered(s: State, ptr: Ptr) {
    exists fd :: fd in s.epoll && s.epoll[fd].ptr == ptr
  }

  // ---------- Messages ----------

  datatype Message =
    | ShutdownHalf(fd: Fd, listening: bool)
    /** `last`: the registry knows no other socket open on this listening descriptor. */
    | CloseSocket(fd: Fd, listening: bool, port: Port, last: bool, accepted: bool)
    | ReturnToken(fd: Fd, listening: bool, port: Port, count: nat, accepted: bool)
    | SetEventMask(fd: Fd, listening: bool, port: Port, mask: Mask, accepted: bool)

  /** `GetDescriptorInfo`: the descriptor of `fd`, made if need be. */
  function WithDescriptor(s: State, fd: Fd, listening: bool): State {
    if fd in s.sockets then s
    else
      s.(heap := s.heap[s.next := Info(fd, if listening then ManyPorts(NEW_MULTI) else OnePort(NEW_SINGLE))],
         sockets := s.sockets[fd := s.next],
         next := s.next + 1)
  }

  function HandleMessage(s0: State, msg: Message): State {
    var s := WithDescriptor(s0, msg.fd, msg.listening);
    var ptr := s.sockets[msg.fd];
    if ptr !in s.heap then s
    else
      var d := s.heap[ptr].desc;
      match msg
      case ShutdownHalf(_, _) => s
      case CloseSocket(fd, _, port, last, accepted) =>
        var s1 := UpdateEpoll(if port == ILLEGAL_PORT then s else SetDesc(s, ptr, Remove(d, port)),
                              ptr, MaskOf(d), accepted);
        if d.OnePort? || last then s1.(sockets := s1.sockets - {fd}, heap := s1.heap - {ptr}) else s1
      case ReturnToken(_, _, port, count, accepted) =>
        UpdateEpoll(Log(SetDesc(s, ptr, Return(d, port, count)), Returned(ptr, port, count)),
                    ptr, MaskOf(d), accepted)
      case SetEventMask(_, _, port, mask, accepted) =>
        UpdateEpoll(if HasPort(d, port) then SetDesc(s, ptr, SetMask(d, port, mask))
                    else Log(SetDesc(s, ptr, SetMask(d, port, mask)), Joined(ptr, port)),
                    ptr, MaskOf(d), accepted)
  }

  /** Tokens gained less tokens spent by a port of a descriptor since it joined. */
  function Balance(log: seq<Record>, ptr: Ptr, port: Port): int {
    if log == [] then 0
    else
      var before := Balance(log[..|log| - 1], ptr, port);
      match log[|log| - 1]
      case Joined(q, p) => if q == ptr && p == port then 0 else before
      case Posted(q, p) => if q == ptr && p == port then before - 1 else before
      case PostedAll(q, ps) => if q == ptr && port in ps then before - 1 else before
      case Returned(q, p, n) => if q == ptr && p == port then before + n else before
  }

  /** What the loop's assertions demand of clients. */
  predicate MessageOk(s0: State, msg: Message) {
    var s := WithDescriptor(s0, msg.fd, msg.listening);
    var ptr := s.sockets[msg.fd];
    && ptr in s.heap
    && var d := s.heap[ptr].desc;
       match msg
       case ShutdownHalf(_, _) => true
       case CloseSocket(_, _, port, last, _) =>
         // The last socket closed leaves no port that still asks for events.
         d.OnePort? || last ==>
           MaskOf(if port == ILLEGAL_PORT then d else Remove(d, port)) == NO_EVENTS
       case ReturnToken(_, _, port, count, _) =>
         // Only tokens received, by a port that receives.
         HasPort(d, port) && Balance(s.log, ptr, port) + count <= 0
       case SetEventMask(_, _, port, mask, _) =>
         && port != ILLEGAL_PORT
         && (d.OnePort? ==> d.single.port == ILLEGAL_PORT || d.single.port == port)
         && (d.ManyPorts? ==> mask == READ_ONLY || mask == NO_EVENTS)
  }

  function HandleMessages(s: State, msgs: seq<Message>): State
    decreases |msgs|
  {
    if msgs == [] then s else HandleMessage(HandleMessages(s, msgs[..|msgs| - 1]), msgs[|msgs| - 1])
  }

  ghost predicate MessagesOk(s: State, msgs: seq<Message>) {
    forall k :: 0 <= k < |msgs| ==> MessageOk(HandleMessages(s, msgs[..k]), msgs[k])
  }

  // ---------- Turns and runs ----------

  /** One turn: all socket events of the batch, and only then the messages. */
  datatype Turn = Turn(events: seq<Event>, msgs: seq<Message>)

  function HandleTurn(s: State, t: Turn): State {
    HandleMessages(HandleBatch(s, t.events), t.msgs)
  }

  ghost predicate TurnPossible(s: State, t: Turn) {
    BatchPossible(s, t.events) && MessagesOk(HandleBatch(s, t.events), t.msgs)
  }

  function Run(ts: seq<Turn>): State
    decreases |ts|
  {
    if ts == [] then INIT else HandleTurn(Run(ts[..|ts| - 1]), ts[|ts| - 1])
  }

  ghost predicate RunPossible(ts: seq<Turn>) {
    forall k :: 0 <= k < |ts| ==> TurnPossible(Run(ts[..k]), ts[k])
  }

  // ---------- The invariant ----------

  /** Pointers and descriptors name each other, one to one. */
  ghost predicate Linked(s: State) {
    && (forall fd :: fd in s.sockets ==> s.sockets[fd] in s.heap && s.heap[s.sockets[fd]].fd == fd)
    && (forall p :: p in s.heap ==> p < s.next && s.heap[p].fd in s.sockets && s.sockets[s.heap[p].fd] == p)
    && (forall p :: p in s.failed ==> p < s.next)
    && (forall i :: 0 <= i < |s.log| ==> s.log[i].ptr < s.next)
  }

  /** A registration is of a live descriptor and asks for exactly what its mask asks for, which is something. */
  ghost predicate Synced(s: State) {
    && (forall fd :: fd in s.epoll ==> fd in s.sockets && RegistrationOk(s, fd))
    && (forall p :: p in s.heap && p !in s.failed && MaskOf(s.heap[p].desc) != NO_EVENTS ==> s.heap[p].fd in s.epoll)
  }

  ghost predicate RegistrationOk(s: State, fd: Fd)
    requires fd in s.epoll
  {
    var r := s.epoll[fd];
    && r.ptr in s.heap && s.heap[r.ptr].fd == fd
    && r.events == MaskOf(s.heap[r.ptr].desc) != NO_EVENTS
    && r.edge == s.heap[r.ptr].desc.OnePort?
  }

  /** Each descriptor on its own. */
  ghost predicate DescriptorOk(d: Descriptor) {
    match d
    case OnePort(s) => 0 <= s.tokens <= SINGLE_TOKENS && (s.port == ILLEGAL_PORT ==> s.mask == NO_EVENTS)
    case ManyPorts(m) => Agrees(m) && ILLEGAL_PORT !in m.entries
  }

  /** Tokens are the limit, less events posted, plus tokens returned. */
  ghost predicate Accounted(s: State, ptr: Ptr)
    requires ptr in s.heap
  {
    var d := s.heap[ptr].desc;
    && (forall p :: HasPort(d, p) ==> TokensOf(d, p) == TokenLimit(d) + Balance(s.log, ptr, p))
    && (forall p :: HasPort(d, p) ==> TokensOf(d, p) <= TokenLimit(d))
    && (d.OnePort? && d.single.port == ILLEGAL_PORT ==> d.single.tokens == SINGLE_TOKENS)
  }

  ghost predicate Inv(s: State) {
    Linked(s) && Synced(s) && AllAccounted(s)
  }

  ghost predicate AllAccounted(s: State) {
    forall p :: p in s.heap ==> DescriptorOk(s.heap[p].desc) && Accounted(s, p)
  }

  // ---------- Changing one descriptor ----------

  /** The invariant but for `ptr`, whose registration still goes by its former mask. */
  ghost predicate Pending(s: State, ptr: Ptr, oldMask: Mask) {
    ptr in s.heap && Linked(s) && PendingSynced(s, ptr, oldMask) && AllAccounted(s)
  }

  ghost predicate PendingSynced(s: State, ptr: Ptr, oldMask: Mask) {
    && (forall fd :: fd in s.epoll ==> fd in s.sockets && PendingRegistration(s, fd, ptr, oldMask))
    && (forall p :: p in s.heap && p !in s.failed && (if p == ptr then oldMask else MaskOf(s.heap[p].desc)) != NO_EVENTS
          ==> s.heap[p].fd in s.epoll)
  }

  ghost predicate PendingRegistration(s: State, fd: Fd, ptr: Ptr, oldMask: Mask)
    requires fd in s.epoll
  {
    var r := s.epoll[fd];
    && r.ptr in s.heap && s.heap[r.ptr].fd == fd
    && r.events == (if r.ptr == ptr then oldMask else MaskOf(s.heap[r.ptr].desc)) != NO_EVENTS
    && r.edge == s.heap[r.ptr].desc.OnePort?
  }

  lemma BalanceSnoc(log: seq<Record>, r: Record, ptr: Ptr, port: Port)
    ensures r.ptr != ptr ==> Balance(log + [r], ptr, port) == Balance(log, ptr, port)
    ensures r == Joined(ptr, port) ==> Balance(log + [r], ptr, port) == 0
    ensures r == Posted(ptr, port) ==> Balance(log + [r], ptr, port) == Balance(log, ptr, port) - 1
    ensures r.Posted? && r.port != port ==> Balance(log + [r], ptr, port) == Balance(log, ptr, port)
    ensures r.Joined? && r.port != port ==> Balance(log + [r], ptr, port) == Balance(log, ptr, port)
    ensures r.Returned? && r.port != port ==> Balance(log + [r], ptr, port) == Balance(log, ptr, port)
    ensures r.PostedAll? && r.ptr == ptr && port in r.ports ==> Balance(log + [r], ptr, port) == Balance(log, ptr, port) - 1
    ensures r.PostedAll? && port !in r.ports ==> Balance(log + [r], ptr, port) == Balance(log, ptr, port)
    ensures r.Returned? && r.ptr == ptr && r.port == port ==>
              Balance(log + [r], ptr, port) == Balance(log, ptr, port) + r.count
  {
    assert (log + [r])[..|log|] == log;
  }

  /** A record about one pointer leaves the accounts of the others. */
  lemma AccountedFrame(s: State, t: State, q: Ptr, r: Record)
    requires q in s.heap && q in t.heap && t.heap[q] == s.heap[q] && Accounted(s, q)
    requires t.log == s.log + [r] && r.ptr != q
    ensures Accounted(t, q)
  {
    forall p | HasPort(t.heap[q].desc, p)
      ensures Balance(t.log, q, p) == Balance(s.log, q, p)
    {
      BalanceSnoc(s.log, r, q, p);
    }
  }

  lemma SetDescLinks(s: State, ptr: Ptr, d: Descriptor)
    requires Linked(s) && ptr in s.heap
    ensures Linked(SetDesc(s, ptr, d))
  {
  }

  lemma LogLinks(s: State, r: Record)
    requires Linked(s) && r.ptr in s.heap
    ensures Linked(Log(s, r))
  {
  }

  /** The registrations still go by the former descriptor. */
  lemma SetDescPends(s: State, ptr: Ptr, d: Descriptor)
    requires Synced(s) && ptr in s.heap && d.OnePort? == s.heap[ptr].desc.OnePort?
    ensures PendingSynced(SetDesc(s, ptr, d), ptr, MaskOf(s.heap[ptr].desc))
  {
    var t := SetDesc(s, ptr, d);
    forall fd | fd in t.epoll
      ensures fd in t.sockets && PendingRegistration(t, fd, ptr, MaskOf(s.heap[ptr].desc))
    {
      assert RegistrationOk(s, fd);
    }
  }

  lemma LogPends(s: State, r: Record, ptr: Ptr, oldMask: Mask)
    requires PendingSynced(s, ptr, oldMask)
    ensures PendingSynced(Log(s, r), ptr, oldMask)
  {
    var t := Log(s, r);
    forall fd | fd in t.epoll
      ensures fd in t.sockets && PendingRegistration(t, fd, ptr, oldMask)
    {
      assert PendingRegistration(s, fd, ptr, oldMask);
    }
  }

  lemma AmendAccounts(s: State, ptr: Ptr, d: Descriptor, r: Record)
    requires AllAccounted(s) && ptr in s.heap && r.ptr == ptr && DescriptorOk(d)
    requires Accounted(Log(SetDesc(s, ptr, d), r), ptr)
    ensures AllAccounted(Log(SetDesc(s, ptr, d), r))
  {
    var t := Log(SetDesc(s, ptr, d), r);
    forall q | q in t.heap
      ensures DescriptorOk(t.heap[q].desc) && Accounted(t, q)
    {
      if q != ptr {
        AccountedFrame(s, t, q, r);
      }
    }
  }

  /** Replacing a descriptor and recording why. */
  lemma Amend(s: State, ptr: Ptr, d: Descriptor, r: Record)
    requires Inv(s) && ptr in s.heap && r.ptr == ptr
    requires d.OnePort? == s.heap[ptr].desc.OnePort? && DescriptorOk(d)
    requires Accounted(Log(SetDesc(s, ptr, d), r), ptr)
    ensures Pending(Log(SetDesc(s, ptr, d), r), ptr, MaskOf(s.heap[ptr].desc))
  {
    SetDescLinks(s, ptr, d);
    LogLinks(SetDesc(s, ptr, d), r);
    SetDescPends(s, ptr, d);
    LogPends(SetDesc(s, ptr, d), r, ptr, MaskOf(s.heap[ptr].desc));
    AmendAccounts(s, ptr, d, r);
  }

  /** Replacing a descriptor without a token moving. */
  lemma AmendQuietly(s: State, ptr: Ptr, d: Descriptor)
    requires Inv(s) && ptr in s.heap
    requires d.OnePort? == s.heap[ptr].desc.OnePort? && DescriptorOk(d)
    requires Accounted(SetDesc(s, ptr, d), ptr)
    ensures Pending(SetDesc(s, ptr, d), ptr, MaskOf(s.heap[ptr].desc))
  {
    SetDescLinks(s, ptr, d);
    SetDescPends(s, ptr, d);
    QuietAccounts(s, ptr, d);
  }

  lemma QuietAccounts(s: State, ptr: Ptr, d: Descriptor)
    requires AllAccounted(s) && ptr in s.heap && DescriptorOk(d) && Accounted(SetDesc(s, ptr, d), ptr)
    ensures AllAccounted(SetDesc(s, ptr, d))
  {
    var t := SetDesc(s, ptr, d);
    forall q | q in t.heap
      ensures DescriptorOk(t.heap[q].desc) && Accounted(t, q)
    {
      assert q != ptr ==> Accounted(s, q);
    }
  }

  /** A descriptor that asks for events serves a real port, which has a token to pay. */
  lemma ServeOk(d: Descriptor)
    requires DescriptorOk(d) && MaskOf(d) != NO_EVENTS
    ensures ServedPort(d) != ILLEGAL_PORT && HasPort(d, ServedPort(d)) && TokensOf(d, ServedPort(d)) > 0
    ensures DescriptorOk(Serve(d))
    ensures forall p :: HasPort(Serve(d), p) <==> HasPort(d, p)
    ensures forall p :: HasPort(d, p) ==>
                          TokensOf(Serve(d), p) == TokensOf(d, p) - (if p == ServedPort(d) then 1 else 0)
  {
    if d.ManyPorts? {
      NotifyAgrees(d.multi);
      assert PortReady(d.multi, d.multi.ready[0]);
    }
  }

  lemma BroadcastOk(d: Descriptor)
    requires DescriptorOk(d) && MaskOf(d) != NO_EVENTS
    ensures DescriptorOk(Broadcast(d))
    ensures forall p :: HasPort(Broadcast(d), p) <==> HasPort(d, p)
    ensures forall p :: HasPort(d, p) <==> p in PortsOf(d)
    ensures forall p :: HasPort(d, p) ==> TokensOf(Broadcast(d), p) == TokensOf(d, p) - 1
  {
    if d.ManyPorts? {
      NotifyAllAgrees(d.multi);
    }
  }

  lemma BroadcastAccounted(s: State, ptr: Ptr)
    requires ptr in s.heap && Accounted(s, ptr)
    requires DescriptorOk(s.heap[ptr].desc) && MaskOf(s.heap[ptr].desc) != NO_EVENTS
    ensures var d := s.heap[ptr].desc;
            Accounted(Log(SetDesc(s, ptr, Broadcast(d)), PostedAll(ptr, PortsOf(d))), ptr)
  {
    var d := s.heap[ptr].desc;
    BroadcastOk(d);
    var t := Log(SetDesc(s, ptr, Broadcast(d)), PostedAll(ptr, PortsOf(d)));
    forall p | HasPort(Broadcast(d), p)
      ensures TokensOf(Broadcast(d), p) == TokenLimit(d) + Balance(t.log, ptr, p)
    {
      BalanceSnoc(s.log, PostedAll(ptr, PortsOf(d)), ptr, p);
    }
  }

  lemma ServeAccounted(s: State, ptr: Ptr)
    requires ptr in s.heap && Accounted(s, ptr)
    requires DescriptorOk(s.heap[ptr].desc) && MaskOf(s.heap[ptr].desc) != NO_EVENTS
    ensures var d := s.heap[ptr].desc;
            Accounted(Log(SetDesc(s, ptr, Serve(d)), Posted(ptr, ServedPort(d))), ptr)
  {
    var d := s.heap[ptr].desc;
    ServeOk(d);
    var t := Log(SetDesc(s, ptr, Serve(d)), Posted(ptr, ServedPort(d)));
    forall p | HasPort(Serve(d), p)
      ensures TokensOf(Serve(d), p) == TokenLimit(d) + Balance(t.log, ptr, p)
    {
      BalanceSnoc(s.log, Posted(ptr, ServedPort(d)), ptr, p);
    }
  }

  // ---------- The epoll set follows ----------

  /** What changing one descriptor leaves alone. */
  ghost predicate Elsewhere(s: State, t: State, ptr: Ptr)
    requires ptr in s.heap
  {
    && t.heap.Keys == s.heap.Keys && t.sockets == s.sockets && t.next == s.next
    && t.heap[ptr].fd == s.heap[ptr].fd
    && (forall q :: q in s.heap && q != ptr ==> t.heap[q] == s.heap[q])
    && (forall fd :: fd != s.heap[ptr].fd ==> (fd in t.epoll <==> fd in s.epoll))
    && (forall fd :: fd in s.epoll && fd != s.heap[ptr].fd ==> t.epoll[fd] == s.epoll[fd])
  }

  /** Registrations have no part in links and accounts. */
  lemma EpollFrame(s: State, epoll: map<Fd, Registration>)
    ensures Linked(s) ==> Linked(s.(epoll := epoll))
    ensures AllAccounted(s) ==> AllAccounted(s.(epoll := epoll))
  {
    if AllAccounted(s) {
      var t := s.(epoll := epoll);
      forall q | q in t.heap
        ensures DescriptorOk(t.heap[q].desc) && Accounted(t, q)
      {
        assert Accounted(s, q);
      }
    }
  }

  lemma AddedSyncs(s: State, ptr: Ptr)
    requires Linked(s) && ptr in s.heap && PendingSynced(s, ptr, NO_EVENTS)
    requires MaskOf(s.heap[ptr].desc) != NO_EVENTS && s.heap[ptr].fd !in s.epoll
    ensures Synced(AddToEpoll(s, ptr, true)) && Elsewhere(s, AddToEpoll(s, ptr, true), ptr)
  {
    var t := AddToEpoll(s, ptr, true);
    forall fd | fd in t.epoll
      ensures fd in t.sockets && RegistrationOk(t, fd)
    {
      if fd != s.heap[ptr].fd {
        assert PendingRegistration(s, fd, ptr, NO_EVENTS);
      }
    }
  }

  lemma AddedKeeps(s: State, ptr: Ptr)
    requires Pending(s, ptr, NO_EVENTS) && MaskOf(s.heap[ptr].desc) != NO_EVENTS
    requires s.heap[ptr].fd !in s.epoll
    ensures Inv(AddToEpoll(s, ptr, true)) && Elsewhere(s, AddToEpoll(s, ptr, true), ptr)
  {
    AddedSyncs(s, ptr);
    EpollFrame(s, AddToEpoll(s, ptr, true).epoll);
  }

  lemma RefusedAccounts(s: State, ptr: Ptr, q: Ptr)
    requires Pending(s, ptr, NO_EVENTS) && MaskOf(s.heap[ptr].desc) != NO_EVENTS && q in s.heap
    ensures var t := AddToEpoll(s, ptr, false);
            DescriptorOk(t.heap[q].desc) && Accounted(t, q)
  {
    var d := s.heap[ptr].desc;
    var t := AddToEpoll(s, ptr, false);
    if q != ptr {
      AccountedFrame(s, t, q, PostedAll(ptr, PortsOf(d)));
    } else {
      BroadcastOk(d);
      BroadcastAccounted(s, ptr);
      assert t.heap[ptr].desc == Broadcast(d);
    }
  }

  lemma RefusedLinks(s: State, ptr: Ptr)
    requires Linked(s) && ptr in s.heap
    ensures var t := AddToEpoll(s, ptr, false);
            Linked(t) && Elsewhere(s, t, ptr)
  {
    var d := Broadcast(s.heap[ptr].desc);
    SetDescLinks(s, ptr, d);
    LogLinks(SetDesc(s, ptr, d), PostedAll(ptr, PortsOf(s.heap[ptr].desc)));
  }

  lemma RefusedSyncs(s: State, ptr: Ptr)
    requires PendingSynced(s, ptr, NO_EVENTS) && ptr in s.heap
    ensures Synced(AddToEpoll(s, ptr, false))
  {
    var t := AddToEpoll(s, ptr, false);
    assert t.epoll == s.epoll && t.sockets == s.sockets && t.failed == s.failed + {ptr};
    forall fd | fd in t.epoll
      ensures fd in t.sockets && RegistrationOk(t, fd)
    {
      assert PendingRegistration(s, fd, ptr, NO_EVENTS);
    }
  }

  lemma RefusedKeeps(s: State, ptr: Ptr)
    requires Pending(s, ptr, NO_EVENTS) && MaskOf(s.heap[ptr].desc) != NO_EVENTS
    requires s.heap[ptr].fd !in s.epoll
    ensures Inv(AddToEpoll(s, ptr, false)) && Elsewhere(s, AddToEpoll(s, ptr, false), ptr)
  {
    RefusedLinks(s, ptr);
    RefusedSyncs(s, ptr);
    var t := AddToEpoll(s, ptr, false);
    forall q | q in t.heap
      ensures DescriptorOk(t.heap[q].desc) && Accounted(t, q)
    {
      RefusedAccounts(s, ptr, q);
    }
  }

  /** A descriptor with a mask and no registration: adding it, or failing to, restores the invariant. */
  lemma AddKeeps(s: State, ptr: Ptr, accepted: bool)
    requires Pending(s, ptr, NO_EVENTS) && MaskOf(s.heap[ptr].desc) != NO_EVENTS
    requires s.heap[ptr].fd !in s.epoll
    ensures Inv(AddToEpoll(s, ptr, accepted)) && Elsewhere(s, AddToEpoll(s, ptr, accepted), ptr)
  {
    if accepted {
      AddedKeeps(s, ptr);
    } else {
      RefusedKeeps(s, ptr);
    }
  }

  lemma RemovePends(s: State, ptr: Ptr, oldMask: Mask)
    requires Linked(s) && ptr in s.heap && PendingSynced(s, ptr, oldMask)
    ensures PendingSynced(RemoveFromEpoll(s, s.heap[ptr].fd), ptr, NO_EVENTS)
  {
    var t := RemoveFromEpoll(s, s.heap[ptr].fd);
    forall fd | fd in t.epoll
      ensures fd in t.sockets && PendingRegistration(t, fd, ptr, NO_EVENTS)
    {
      assert PendingRegistration(s, fd, ptr, oldMask);
    }
  }

  lemma RemoveKeeps(s: State, ptr: Ptr, oldMask: Mask)
    requires Pending(s, ptr, oldMask)
    ensures Pending(RemoveFromEpoll(s, s.heap[ptr].fd), ptr, NO_EVENTS)
    ensures Elsewhere(s, RemoveFromEpoll(s, s.heap[ptr].fd), ptr)
  {
    RemovePends(s, ptr, oldMask);
    EpollFrame(s, RemoveFromEpoll(s, s.heap[ptr].fd).epoll);
  }

  /** With the mask as registered the invariant is whole again. */
  lemma SettledIs(s: State, ptr: Ptr)
    requires ptr in s.heap && Pending(s, ptr, MaskOf(s.heap[ptr].desc))
    ensures Inv(s)
  {
    forall fd | fd in s.epoll
      ensures RegistrationOk(s, fd)
    {
      assert PendingRegistration(s, fd, ptr, MaskOf(s.heap[ptr].desc));
    }
  }

  lemma NotRegistered(s: State, ptr: Ptr)
    requires Pending(s, ptr, NO_EVENTS)
    ensures s.heap[ptr].fd !in s.epoll
  {
    assert forall fd :: fd in s.epoll ==> PendingRegistration(s, fd, ptr, NO_EVENTS);
  }

  lemma SettlesWithout(s: State, ptr: Ptr, oldMask: Mask)
    requires Pending(s, ptr, oldMask) && MaskOf(s.heap[ptr].desc) == NO_EVENTS
    ensures var t := RemoveFromEpoll(s, s.heap[ptr].fd);
            Inv(t) && Elsewhere(s, t, ptr)
  {
    RemoveKeeps(s, ptr, oldMask);
    SettledIs(RemoveFromEpoll(s, s.heap[ptr].fd), ptr);
  }

  lemma SettlesAgain(s: State, ptr: Ptr, oldMask: Mask, accepted: bool)
    requires Pending(s, ptr, oldMask) && MaskOf(s.heap[ptr].desc) != NO_EVENTS
    ensures var t := AddToEpoll(RemoveFromEpoll(s, s.heap[ptr].fd), ptr, accepted);
            Inv(t) && Elsewhere(s, t, ptr)
  {
    RemoveKeeps(s, ptr, oldMask);
    AddKeeps(RemoveFromEpoll(s, s.heap[ptr].fd), ptr, accepted);
  }

  lemma RemoveAbsent(s: State, ptr: Ptr)
    requires Pending(s, ptr, NO_EVENTS)
    ensures RemoveFromEpoll(s, s.heap[ptr].fd) == s
  {
    NotRegistered(s, ptr);
    assert s.epoll - {s.heap[ptr].fd} == s.epoll;
  }

  /** Whatever changed about one descriptor, updating the epoll set restores the invariant. */
  lemma UpdateEpollKeeps(s: State, ptr: Ptr, oldMask: Mask, accepted: bool)
    requires Pending(s, ptr, oldMask)
    ensures Inv(UpdateEpoll(s, ptr, oldMask, accepted)) && Elsewhere(s, UpdateEpoll(s, ptr, oldMask, accepted), ptr)
  {
    var newMask := MaskOf(s.heap[ptr].desc);
    if newMask == oldMask {
      SettledIs(s, ptr);
    } else if newMask == NO_EVENTS {
      SettlesWithout(s, ptr, oldMask);
    } else {
      SettlesAgain(s, ptr, oldMask, accepted);
      UpdateAdds(s, ptr, oldMask, accepted);
    }
  }

  /** A change to a mask that is not empty always ends in adding the descriptor again. */
  lemma UpdateAdds(s: State, ptr: Ptr, oldMask: Mask, accepted: bool)
    requires Pending(s, ptr, oldMask) && MaskOf(s.heap[ptr].desc) !in {oldMask, NO_EVENTS}
    ensures UpdateEpoll(s, ptr, oldMask, accepted) == AddToEpoll(RemoveFromEpoll(s, s.heap[ptr].fd), ptr, accepted)
  {
    if oldMask == NO_EVENTS {
      RemoveAbsent(s, ptr);
    }
  }

  // ---------- A batch ----------

  /** A registered pointer is live and its descriptor asks for events. */
  lemma RegisteredIsLive(s: State, ptr: Ptr)
    requires Inv(s) && Registered(s, ptr)
    ensures ptr in s.heap && MaskOf(s.heap[ptr].desc) != NO_EVENTS && s.heap[ptr].fd in s.epoll
    ensures s.epoll[s.heap[ptr].fd].ptr == ptr
  {
    var fd :| fd in s.epoll && s.epoll[fd].ptr == ptr;
    assert RegistrationOk(s, fd);
  }

  lemma ElsewhereCompose(s: State, t: State, u: State, ptr: Ptr)
    requires ptr in s.heap && Elsewhere(s, t, ptr) && Elsewhere(t, u, ptr)
    ensures Elsewhere(s, u, ptr)
  {
  }

  lemma ServeKeeps(s: State, ptr: Ptr)
    requires Inv(s) && ptr in s.heap && MaskOf(s.heap[ptr].desc) != NO_EVENTS
    ensures var d := s.heap[ptr].desc;
            Pending(Log(SetDesc(s, ptr, Serve(d)), Posted(ptr, ServedPort(d))), ptr, MaskOf(d))
  {
    var d := s.heap[ptr].desc;
    ServeOk(d);
    ServeAccounted(s, ptr);
    Amend(s, ptr, Serve(d), Posted(ptr, ServedPort(d)));
  }

  lemma BroadcastKeeps(s: State, ptr: Ptr)
    requires Inv(s) && ptr in s.heap && MaskOf(s.heap[ptr].desc) != NO_EVENTS
    ensures var d := s.heap[ptr].desc;
            Pending(Log(SetDesc(s, ptr, Broadcast(d)), PostedAll(ptr, PortsOf(d))), ptr, MaskOf(d))
  {
    var d := s.heap[ptr].desc;
    BroadcastOk(d);
    BroadcastAccounted(s, ptr);
    Amend(s, ptr, Broadcast(d), PostedAll(ptr, PortsOf(d)));
  }

  lemma ElsewhereAmended(s: State, ptr: Ptr, d: Descriptor, r: Record)
    requires ptr in s.heap
    ensures Elsewhere(s, Log(SetDesc(s, ptr, d), r), ptr)
  {
  }

  lemma ErrorKeeps(s: State, e: Event)
    requires Inv(s) && e.ptr in s.heap && MaskOf(s.heap[e.ptr].desc) != NO_EVENTS
    requires GetPollEvents(e.kernel).ErrorEvent?
    ensures Inv(HandleEvent(s, e)) && Elsewhere(s, HandleEvent(s, e), e.ptr)
  {
    var d := s.heap[e.ptr].desc;
    BroadcastKeeps(s, e.ptr);
    AmendedKeeps(s, e.ptr, Broadcast(d), PostedAll(e.ptr, PortsOf(d)), e.accepted);
  }

  /** Bringing the registration up to date after a recorded change keeps the invariant. */
  lemma AmendedKeeps(s: State, ptr: Ptr, d: Descriptor, r: Record, accepted: bool)
    requires ptr in s.heap && Pending(Log(SetDesc(s, ptr, d), r), ptr, MaskOf(s.heap[ptr].desc))
    ensures var t := UpdateEpoll(Log(SetDesc(s, ptr, d), r), ptr, MaskOf(s.heap[ptr].desc), accepted);
            Inv(t) && Elsewhere(s, t, ptr)
  {
    var t := Log(SetDesc(s, ptr, d), r);
    UpdateEpollKeeps(t, ptr, MaskOf(s.heap[ptr].desc), accepted);
    ElsewhereAmended(s, ptr, d, r);
    ElsewhereCompose(s, t, UpdateEpoll(t, ptr, MaskOf(s.heap[ptr].desc), accepted), ptr);
  }

  lemma IoKeeps(s: State, e: Event)
    requires Inv(s) && e.ptr in s.heap && MaskOf(s.heap[e.ptr].desc) != NO_EVENTS
    requires GetPollEvents(e.kernel).IoEvent?
    ensures Inv(HandleEvent(s, e)) && Elsewhere(s, HandleEvent(s, e), e.ptr)
  {
    var d := s.heap[e.ptr].desc;
    ServeKeeps(s, e.ptr);
    AmendedKeeps(s, e.ptr, Serve(d), Posted(e.ptr, ServedPort(d)), e.accepted);
  }

  lemma EventKeeps(s: State, e: Event)
    requires Inv(s) && Registered(s, e.ptr) && e.ptr in s.heap
    ensures Inv(HandleEvent(s, e)) && Elsewhere(s, HandleEvent(s, e), e.ptr)
  {
    RegisteredIsLive(s, e.ptr);
    match GetPollEvents(e.kernel)
    case NoEvent =>
    case ErrorEvent => ErrorKeeps(s, e);
    case IoEvent(_, _, _) => IoKeeps(s, e);
  }

  lemma RegisteredElsewhere(s: State, t: State, ptr: Ptr, q: Ptr)
    requires Inv(s) && ptr in s.heap && Elsewhere(s, t, ptr) && Registered(s, q) && q != ptr
    ensures Registered(t, q)
  {
    RegisteredIsLive(s, q);
    assert s.heap[q].fd != s.heap[ptr].fd;
    assert t.epoll[s.heap[q].fd].ptr == q;
  }

  lemma BatchStep(s: State, es: seq<Event>, q: Ptr)
    requires es != []
    requires var t := HandleBatch(s, es[..|es| - 1]);
             Inv(t) && Registered(t, es[|es| - 1].ptr)
    ensures Inv(HandleBatch(s, es))
    ensures Registered(HandleBatch(s, es[..|es| - 1]), q) && q != es[|es| - 1].ptr ==> Registered(HandleBatch(s, es), q)
  {
    var t, e := HandleBatch(s, es[..|es| - 1]), es[|es| - 1];
    RegisteredIsLive(t, e.ptr);
    EventKeeps(t, e);
    if Registered(t, q) && q != e.ptr {
      RegisteredElsewhere(t, HandleEvent(t, e), e.ptr, q);
    }
  }

  /** A batch keeps the invariant and every registration it has no event for: nothing in it frees a descriptor. */
  lemma {:induction false} BatchKeeps(s: State, es: seq<Event>, q: Ptr)
    requires Inv(s) && BatchPossible(s, es)
    ensures Inv(HandleBatch(s, es))
    ensures Registered(s, q) && (forall i :: 0 <= i < |es| ==> es[i].ptr != q) ==> Registered(HandleBatch(s, es), q)
    decreases |es|
  {
    if es != [] {
      var n := |es| - 1;
      assert BatchPossible(s, es[..n]);
      assert forall i :: 0 <= i < n ==> es[..n][i].ptr != es[n].ptr;
      BatchKeeps(s, es[..n], es[n].ptr);
      BatchKeeps(s, es[..n], q);
      BatchStep(s, es, q);
    }
  }

  /** Every event of a batch finds its descriptor live and registered, and an I/O event reaches a real port. */
  lemma EventsDelivered(s: State, es: seq<Event>, k: nat)
    requires Inv(s) && BatchPossible(s, es) && k < |es|
    ensures var t := HandleBatch(s, es[..k]);
            && Registered(t, es[k].ptr) && es[k].ptr in t.heap
            && ServedPort(t.heap[es[k].ptr].desc) != ILLEGAL_PORT
            && TokensOfServed(t.heap[es[k].ptr].desc) > 0
  {
    BatchKeeps(s, es[..k], es[k].ptr);
    var t := HandleBatch(s, es[..k]);
    RegisteredIsLive(t, es[k].ptr);
    ServeOk(t.heap[es[k].ptr].desc);
  }

  /** Input, output or a hang-up reported in a batch is told to one port of its descriptor, which had a token for it. */
  lemma IoReachesPort(s: State, es: seq<Event>, k: nat) returns (p: Port)
    requires Inv(s) && BatchPossible(s, es) && k < |es|
    requires !es[k].kernel.err && (es[k].kernel.read || es[k].kernel.write || es[k].kernel.hup)
    ensures var t := HandleBatch(s, es[..k]);
            && es[k].ptr in t.heap && var d := t.heap[es[k].ptr].desc;
            && p != 0 && HasPort(d, p) && TokensOf(d, p) > 0
            && t.log + [Posted(es[k].ptr, p)] <= HandleBatch(s, es[..k + 1]).log
  {
    EventsDelivered(s, es, k);
    var t, e := HandleBatch(s, es[..k]), es[k];
    assert es[..k + 1][..k] == es[..k];
    var d := t.heap[e.ptr].desc;
    p := ServedPort(d);
    if d.OnePort? {
      SingleIo(t, e);
    } else {
      ListeningIo(t, e, p);
    }
  }

  function TokensOfServed(d: Descriptor): int {
    if HasPort(d, ServedPort(d)) then TokensOf(d, ServedPort(d)) else 0
  }

  // ---------- Messages ----------

  lemma WithDescriptorLinks(s: State, fd: Fd, listening: bool)
    requires Linked(s)
    ensures Linked(WithDescriptor(s, fd, listening))
  {
  }

  lemma WithDescriptorSyncs(s: State, fd: Fd, listening: bool)
    requires Linked(s) && Synced(s)
    ensures Synced(WithDescriptor(s, fd, listening))
  {
    var t := WithDescriptor(s, fd, listening);
    forall f | f in t.epoll
      ensures f in t.sockets && RegistrationOk(t, f)
    {
      assert RegistrationOk(s, f);
    }
  }

  lemma WithDescriptorKeeps(s: State, fd: Fd, listening: bool)
    requires Inv(s)
    ensures Inv(WithDescriptor(s, fd, listening)) && fd in WithDescriptor(s, fd, listening).sockets
  {
    WithDescriptorLinks(s, fd, listening);
    WithDescriptorSyncs(s, fd, listening);
    WithDescriptorAccounts(s, fd, listening);
  }

  lemma WithDescriptorAccounts(s: State, fd: Fd, listening: bool)
    requires AllAccounted(s)
    ensures AllAccounted(WithDescriptor(s, fd, listening))
  {
    var t := WithDescriptor(s, fd, listening);
    forall q | q in t.heap
      ensures DescriptorOk(t.heap[q].desc) && Accounted(t, q)
    {
      assert q in s.heap ==> Accounted(s, q);
    }
  }

  /** Dropping a descriptor whose registration is gone. */
  lemma DropKeeps(s: State, ptr: Ptr)
    requires Inv(s) && ptr in s.heap
    ensures var fd := s.heap[ptr].fd;
            Inv(s.(sockets := s.sockets - {fd}, heap := s.heap - {ptr}, epoll := s.epoll - {fd}))
  {
    var fd := s.heap[ptr].fd;
    var t := s.(sockets := s.sockets - {fd}, heap := s.heap - {ptr}, epoll := s.epoll - {fd});
    forall q | q in t.heap
      ensures Accounted(t, q)
    {
      assert Accounted(s, q);
    }
    forall f | f in t.epoll
      ensures f in t.sockets && RegistrationOk(t, f)
    {
      assert RegistrationOk(s, f);
    }
  }

  /** A descriptor without a mask is not registered. */
  lemma NoMaskNotRegistered(s: State, ptr: Ptr)
    requires Inv(s) && ptr in s.heap && MaskOf(s.heap[ptr].desc) == NO_EVENTS
    ensures s.epoll - {s.heap[ptr].fd} == s.epoll
  {
    assert forall fd :: fd in s.epoll ==> RegistrationOk(s, fd);
  }

  /** Closing for good: the registration goes before the descriptor does. */
  lemma CloseKeeps(s: State, ptr: Ptr, d: Descriptor, accepted: bool)
    requires Inv(s) && ptr in s.heap && MaskOf(d) == NO_EVENTS
    ensures var fd := s.heap[ptr].fd;
            var t := UpdateEpoll(SetDesc(s, ptr, d), ptr, MaskOf(s.heap[ptr].desc), accepted);
            Inv(t.(sockets := t.sockets - {fd}, heap := t.heap - {ptr}))
  {
    var fd := s.heap[ptr].fd;
    var t := UpdateEpoll(SetDesc(s, ptr, d), ptr, MaskOf(s.heap[ptr].desc), accepted);
    DropKeeps(s, ptr);
    if MaskOf(s.heap[ptr].desc) == NO_EVENTS {
      NoMaskNotRegistered(s, ptr);
    }
    assert t.epoll == s.epoll - {fd};
    assert t.heap - {ptr} == s.heap - {ptr};
  }

  lemma RemoveOk(s: State, ptr: Ptr, port: Port)
    requires Inv(s) && ptr in s.heap && s.heap[ptr].desc.ManyPorts?
    ensures Pending(SetDesc(s, ptr, Remove(s.heap[ptr].desc, port)), ptr, MaskOf(s.heap[ptr].desc))
  {
    RemovePortAgrees(s.heap[ptr].desc.multi, port);
    assert Accounted(s, ptr);
    AmendQuietly(s, ptr, Remove(s.heap[ptr].desc, port));
  }

  lemma ReturnOk(s: State, ptr: Ptr, port: Port, count: nat)
    requires Inv(s) && ptr in s.heap && HasPort(s.heap[ptr].desc, port)
    requires Balance(s.log, ptr, port) + count <= 0
    ensures Pending(Log(SetDesc(s, ptr, Return(s.heap[ptr].desc, port, count)), Returned(ptr, port, count)),
                    ptr, MaskOf(s.heap[ptr].desc))
  {
    var d, r := s.heap[ptr].desc, Returned(ptr, port, count);
    ReturnAgrees(d, port, count);
    ReturnAccounted(s, ptr, port, count);
    Amend(s, ptr, Return(d, port, count), r);
  }

  lemma ReturnAgrees(d: Descriptor, port: Port, count: nat)
    requires DescriptorOk(d) && HasPort(d, port) && TokensOf(d, port) + count <= TokenLimit(d)
    ensures DescriptorOk(Return(d, port, count))
    ensures forall p :: HasPort(Return(d, port, count), p) <==> HasPort(d, p)
    ensures forall p :: HasPort(d, p) ==> TokensOf(Return(d, port, count), p) == TokensOf(d, p) + if p == port then count else 0
  {
    if d.ManyPorts? {
      SetEntryAgrees(d.multi, port, Return(d, port, count).multi.entries[port]);
    }
  }

  lemma ReturnAccounted(s: State, ptr: Ptr, port: Port, count: nat)
    requires ptr in s.heap && Accounted(s, ptr) && DescriptorOk(s.heap[ptr].desc) && HasPort(s.heap[ptr].desc, port)
    requires Balance(s.log, ptr, port) + count <= 0
    ensures Accounted(Log(SetDesc(s, ptr, Return(s.heap[ptr].desc, port, count)), Returned(ptr, port, count)), ptr)
  {
    var d, r := s.heap[ptr].desc, Returned(ptr, port, count);
    var d' := Return(d, port, count);
    ReturnAgrees(d, port, count);
    forall p | HasPort(d', p)
      ensures TokensOf(d', p) == TokenLimit(d') + Balance(s.log + [r], ptr, p) <= TokenLimit(d')
    {
      BalanceSnoc(s.log, r, ptr, p);
    }
  }

  lemma SetMaskOk(s: State, ptr: Ptr, port: Port, mask: Mask)
    requires Inv(s) && ptr in s.heap && HasPort(s.heap[ptr].desc, port)
    requires s.heap[ptr].desc.ManyPorts? ==> mask == READ_ONLY || mask == NO_EVENTS
    ensures Pending(SetDesc(s, ptr, SetMask(s.heap[ptr].desc, port, mask)), ptr, MaskOf(s.heap[ptr].desc))
  {
    var d := s.heap[ptr].desc;
    var d' := SetMask(d, port, mask);
    assert Accounted(s, ptr);
    if d.ManyPorts? {
      SetEntryAgrees(d.multi, port, d'.multi.entries[port]);
    }
    AmendQuietly(s, ptr, d');
  }

  lemma JoinOk(s: State, ptr: Ptr, port: Port, mask: Mask)
    requires Inv(s) && ptr in s.heap && !HasPort(s.heap[ptr].desc, port) && port != ILLEGAL_PORT
    requires s.heap[ptr].desc.OnePort? ==> s.heap[ptr].desc.single.port == ILLEGAL_PORT
    ensures Pending(Log(SetDesc(s, ptr, SetMask(s.heap[ptr].desc, port, mask)), Joined(ptr, port)),
                    ptr, MaskOf(s.heap[ptr].desc))
  {
    var d, r := s.heap[ptr].desc, Joined(ptr, port);
    var d' := SetMask(d, port, mask);
    assert Accounted(s, ptr);
    if d.ManyPorts? {
      SetEntryAgrees(d.multi, port, d'.multi.entries[port]);
    }
    var t := Log(SetDesc(s, ptr, d'), r);
    forall p | HasPort(d', p)
      ensures TokensOf(d', p) == TokenLimit(d') + Balance(t.log, ptr, p) <= TokenLimit(d')
    {
      assert p != port ==> HasPort(d, p);
      BalanceSnoc(s.log, r, ptr, p);
    }
    Amend(s, ptr, d', r);
  }

  lemma UnchangedKeeps(s: State, ptr: Ptr, accepted: bool)
    requires Inv(s) && ptr in s.heap
    ensures UpdateEpoll(s, ptr, MaskOf(s.heap[ptr].desc), accepted) == s
  {
  }

  lemma CloseMessageKeeps(s: State, msg: Message)
    requires Inv(s) && msg.CloseSocket? && msg.fd in s.sockets && MessageOk(s, msg)
    ensures Inv(HandleMessage(s, msg))
  {
    var ptr := s.sockets[msg.fd];
    var d := s.heap[ptr].desc;
    var d' := if msg.port == ILLEGAL_PORT then d else Remove(d, msg.port);
    assert SetDesc(s, ptr, d) == s by {
      assert s.heap[ptr := s.heap[ptr]] == s.heap;
    }
    if d.OnePort? || msg.last {
      CloseKeeps(s, ptr, d', msg.accepted);
    } else if msg.port == ILLEGAL_PORT {
      UnchangedKeeps(s, ptr, msg.accepted);
    } else {
      RemoveOk(s, ptr, msg.port);
      UpdateEpollKeeps(SetDesc(s, ptr, d'), ptr, MaskOf(d), msg.accepted);
    }
  }

  lemma KnownMessageKeeps(s: State, msg: Message)
    requires Inv(s) && msg.fd in s.sockets && MessageOk(s, msg)
    ensures Inv(HandleMessage(s, msg))
  {
    var ptr := s.sockets[msg.fd];
    var d := s.heap[ptr].desc;
    match msg
    case ShutdownHalf(_, _) =>
    case CloseSocket(_, _, _, _, _) =>
      CloseMessageKeeps(s, msg);
    case ReturnToken(_, _, port, count, accepted) =>
      ReturnOk(s, ptr, port, count);
      UpdateEpollKeeps(Log(SetDesc(s, ptr, Return(d, port, count)), Returned(ptr, port, count)),
                       ptr, MaskOf(d), accepted);
    case SetEventMask(_, _, port, mask, accepted) =>
      if HasPort(d, port) {
        SetMaskOk(s, ptr, port, mask);
        UpdateEpollKeeps(SetDesc(s, ptr, SetMask(d, port, mask)), ptr, MaskOf(d), accepted);
      } else {
        JoinOk(s, ptr, port, mask);
        UpdateEpollKeeps(Log(SetDesc(s, ptr, SetMask(d, port, mask)), Joined(ptr, port)),
                         ptr, MaskOf(d), accepted);
      }
  }

  lemma MessageKeeps(s: State, msg: Message)
    requires Inv(s) && MessageOk(s, msg)
    ensures Inv(HandleMessage(s, msg))
  {
    WithDescriptorKeeps(s, msg.fd, msg.listening);
    KnownMessageKeeps(WithDescriptor(s, msg.fd, msg.listening), msg);
  }

  // ---------- From asking to events ----------

  /** The first request on a descriptor registers it for just that, with the tokens of its kind. */
  lemma FirstRequest(s: State, fd: Fd, listening: bool, port: Port, mask: Mask)
    requires Inv(s) && fd !in s.sockets && port != 0 && mask != NO_EVENTS && (listening ==> mask == Mask(true, false))
    ensures var t := HandleMessage(s, SetEventMask(fd, listening, port, mask, true));
            && fd in t.epoll && t.epoll[fd] == Registration(s.next, mask, !listening)
            && s.next in t.heap
            && t.heap[s.next] == Info(fd, if listening then ManyPorts(Multi(map[port := PortState(true, 4)], [port]))
                                          else OnePort(Single(port, 16, mask)))
  {
    var t := WithDescriptor(s, fd, listening);
    assert fd !in t.epoll;
    if listening {
      assert SetMask(ManyPorts(NEW_MULTI), port, mask) == ManyPorts(Multi(map[port := PortState(true, 4)], [port]));
    }
  }

  /** The event that takes the last token of a single port ends its registration. */
  lemma LastTokenStops(s: State, e: Event)
    requires Inv(s) && Registered(s, e.ptr) && !e.kernel.err && (e.kernel.read || e.kernel.write || e.kernel.hup)
    requires e.ptr in s.heap && s.heap[e.ptr].desc.OnePort? && s.heap[e.ptr].desc.single.tokens == 1
    ensures s.heap[e.ptr].fd !in HandleEvent(s, e).epoll
  {
    RegisteredIsLive(s, e.ptr);
  }

  /** Tokens given back bring it back. */
  lemma ReturnResumes(s: State, fd: Fd, port: Port, count: nat)
    requires Inv(s) && fd in s.sockets && s.heap[s.sockets[fd]].desc.OnePort? && count > 0
    requires var x := s.heap[s.sockets[fd]].desc.single; x.port == port && x.tokens == 0 && x.mask != NO_EVENTS
    ensures var t, ptr := HandleMessage(s, ReturnToken(fd, false, port, count, true)), s.sockets[fd];
            && fd in t.epoll && t.epoll[fd] == Registration(ptr, s.heap[ptr].desc.single.mask, true)
            && ptr in t.heap && t.heap[ptr].desc == OnePort(s.heap[ptr].desc.single.(tokens := count))
  {
    assert fd in s.epoll ==> RegistrationOk(s, fd);
  }

  lemma EarlierMessages(s: State, msgs: seq<Message>, n: nat)
    requires MessagesOk(s, msgs) && n <= |msgs|
    ensures MessagesOk(s, msgs[..n]) && (n < |msgs| ==> MessageOk(HandleMessages(s, msgs[..n]), msgs[n]))
  {
    forall k | 0 <= k < n
      ensures MessageOk(HandleMessages(s, msgs[..n][..k]), msgs[..n][k])
    {
      assert msgs[..n][..k] == msgs[..k];
    }
  }

  lemma {:induction false} MessagesKeep(s: State, msgs: seq<Message>)
    requires Inv(s) && MessagesOk(s, msgs)
    ensures Inv(HandleMessages(s, msgs))
    decreases |msgs|
  {
    if msgs != [] {
      var n := |msgs| - 1;
      EarlierMessages(s, msgs, n);
      MessagesKeep(s, msgs[..n]);
      MessageKeeps(HandleMessages(s, msgs[..n]), msgs[n]);
    }
  }

  // ---------- Every run ----------

  /** The invariant holds after every turn of every run. */
  lemma {:induction false} EveryRun(ts: seq<Turn>)
    requires RunPossible(ts)
    ensures Inv(Run(ts))
    decreases |ts|
  {
    if ts != [] {
      var n := |ts| - 1;
      EarlierRun(ts, n);
      EveryRun(ts[..n]);
      TurnKeeps(Run(ts[..n]), ts[n]);
    }
  }

  lemma EarlierRun(ts: seq<Turn>, n: nat)
    requires RunPossible(ts) && n <= |ts|
    ensures RunPossible(ts[..n]) && (n < |ts| ==> TurnPossible(Run(ts[..n]), ts[n]))
  {
    forall k | 0 <= k < n
      ensures TurnPossible(Run(ts[..n][..k]), ts[..n][k])
    {
      assert ts[..n][..k] == ts[..k];
    }
  }

  lemma TurnKeeps(s: State, t: Turn)
    requires Inv(s) && TurnPossible(s, t)
    ensures Inv(HandleTurn(s, t))
  {
    BatchKeeps(s, t.events, 0);
    MessagesKeep(HandleBatch(s, t.events), t.msgs);
  }

  /**
   * After every run: what is registered is live and registered for exactly its
   * mask; what has a mask is registered unless adding it failed once.
   */
  lemma RegistrationsExact(ts: seq<Turn>, fd: Fd)
    requires RunPossible(ts) && fd in Run(ts).sockets
    ensures var s := Run(ts);
            && s.sockets[fd] in s.heap
            && var d := s.heap[s.sockets[fd]].desc;
               && (fd in s.epoll ==> s.epoll[fd] == Registration(s.sockets[fd], MaskOf(d), d.OnePort?))
               && (fd in s.epoll ==> MaskOf(d) != NO_EVENTS)
               && (MaskOf(d) != NO_EVENTS && s.sockets[fd] !in s.failed ==> fd in s.epoll)
  {
    EveryRun(ts);
    var s := Run(ts);
    if fd in s.epoll {
      assert RegistrationOk(s, fd);
    }
  }

  /** In every run, each event of a turn's batch finds its descriptor live and serves a real port with a token. */
  lemma NoEventAfterFree(ts: seq<Turn>, t: Turn, k: nat)
    requires RunPossible(ts) && TurnPossible(Run(ts), t) && k < |t.events|
    ensures var s := HandleBatch(Run(ts), t.events[..k]);
            && t.events[k].ptr in s.heap
            && ServedPort(s.heap[t.events[k].ptr].desc) != ILLEGAL_PORT
            && TokensOfServed(s.heap[t.events[k].ptr].desc) > 0
  {
    EveryRun(ts);
    EventsDelivered(Run(ts), t.events, k);
  }

  /** Conservation: a port's tokens are its limit, less the events posted to it, plus the tokens it returned. */
  lemma TokensConserved(ts: seq<Turn>, ptr: Ptr, p: Port)
    requires RunPossible(ts) && ptr in Run(ts).heap && HasPort(Run(ts).heap[ptr].desc, p)
    ensures var s := Run(ts);
            var d := s.heap[ptr].desc;
            && TokensOf(d, p) == (if d.OnePort? then 16 else 4) + Balance(s.log, ptr, p)
            && Balance(s.log, ptr, p) <= 0 && (d.OnePort? ==> 0 <= TokensOf(d, p))
  {
    EveryRun(ts);
    assert Accounted(Run(ts), ptr);
  }

  lemma OneMessage(s: State, msg: Message)
    ensures HandleMessages(s, [msg]) == HandleMessage(s, msg)
    ensures MessageOk(s, msg) ==> MessagesOk(s, [msg])
  {
    assert [msg][..0] == [];
  }

  /**
   * The order within a turn is what keeps pointers live: there is a run and a
   * turn whose messages, handled first, would free the descriptor of its event.
   */
  lemma ClosingFirstWouldDangle()
    ensures exists ts: seq<Turn>, t: Turn ::
              && RunPossible(ts) && TurnPossible(Run(ts), t)
              && |t.events| == 1 && t.events[0].ptr !in HandleMessages(Run(ts), t.msgs).heap
  {
    var open := SetEventMask(5, false, 7, READ_ONLY, true);
    OneMessage(INIT, open);
    var first := Turn([], [open]);
    var ts := [first];
    assert ts[..0] == [];
    assert Run([]) == INIT && HandleBatch(INIT, []) == INIT;
    assert TurnPossible(INIT, first);
    var s := Run(ts);
    assert s == HandleMessage(INIT, open);
    assert s.epoll == map[5 := Registration(0, READ_ONLY, true)] && 5 in s.sockets && s.sockets[5] == 0;
    assert Registered(s, 0);

    var e := Event(0, KernelEvents(true, false, false, false), true);
    var close := CloseSocket(5, false, 7, true, true);
    var t := Turn([e], [close]);
    assert [e][..0] == [];
    var after := HandleBatch(s, [e]);
    assert after == HandleEvent(HandleBatch(s, []), e);
    OneMessage(after, close);
    OneMessage(s, close);
    assert MessageOk(after, close);
    assert BatchPossible(s, t.events);
    assert 0 !in HandleMessage(s, close).heap;
  }

  // ---------- The handler's sockets ----------

  class EventHandlerImplementation {
    var heap: map<Ptr, Info>
    var socketMap: map<Fd, Ptr>
    var epoll: map<Fd, Registration>
    var next: Ptr
    var failed: set<Ptr>
    var log: seq<Record>

    ghost function Now(): State
      reads this
    {
      State(heap, socketMap, epoll, next, failed, log)
    }

    constructor ()
      ensures Now() == INIT && Inv(Now())
    {
      heap, socketMap, epoll, next, failed, log := map[], map[], map[], 0, {}, [];
    }

    method StoreDescriptor(ptr: Ptr, d: Descriptor)
      requires ptr in heap
      modifies this`heap
      ensures Now() == SetDesc(old(Now()), ptr, d)
    {
      heap := heap[ptr := heap[ptr].(desc := d)];
    }

    /** A refused descriptor is reported closed to its ports. */
    method AddToEpollInstance(ptr: Ptr, accepted: bool)
      requires ptr in heap
      modifies this
      ensures Now() == AddToEpoll(old(Now()), ptr, accepted)
    {
      var info := heap[ptr];
      var status := if accepted && info.fd !in epoll then 0 else -1;
      if status == -1 {
        StoreDescriptor(ptr, Broadcast(info.desc));
        log := log + [PostedAll(ptr, PortsOf(info.desc))];
        failed := failed + {ptr};
      } else {
        epoll := epoll[info.fd := Registration(ptr, MaskOf(info.desc), info.desc.OnePort?)];
      }
    }

    method UpdateEpollInstance(oldMask: Mask, ptr: Ptr, accepted: bool)
      requires ptr in heap
      modifies this
      ensures Now() == UpdateEpoll(old(Now()), ptr, oldMask, accepted)
    {
      var newMask := MaskOf(heap[ptr].desc);
      if oldMask != NO_EVENTS && newMask == NO_EVENTS {
        epoll := epoll - {heap[ptr].fd};
      } else if oldMask == NO_EVENTS && newMask != NO_EVENTS {
        AddToEpollInstance(ptr, accepted);
      } else if oldMask != NO_EVENTS && newMask != NO_EVENTS && oldMask != newMask {
        epoll := epoll - {heap[ptr].fd};
        AddToEpollInstance(ptr, accepted);
      }
    }

    method GetDescriptorInfo(fd: Fd, listening: bool) returns (ptr: Ptr)
      modifies this
      ensures Now() == WithDescriptor(old(Now()), fd, listening)
      ensures fd in socketMap && ptr == socketMap[fd]
    {
      if fd !in socketMap {
        heap := heap[next := Info(fd, if listening then ManyPorts(NEW_MULTI) else OnePort(NEW_SINGLE))];
        socketMap := socketMap[fd := next];
        next := next + 1;
      }
      ptr := socketMap[fd];
    }

    /** Dereferences the event's pointer, which the invariant makes a live one. */
    method HandleSocketEvent(e: Event)
      requires e.ptr in heap
      modifies this
      ensures Now() == HandleEvent(old(Now()), e)
    {
      var d := heap[e.ptr].desc;
      var oldMask := MaskOf(d);
      var eventMask := GetPollEvents(e.kernel);
      if eventMask.ErrorEvent? {
        StoreDescriptor(e.ptr, Broadcast(d));
        log := log + [PostedAll(e.ptr, PortsOf(d))];
        UpdateEpollInstance(oldMask, e.ptr, e.accepted);
      } else if !eventMask.NoEvent? {
        StoreDescriptor(e.ptr, Serve(d));
        log := log + [Posted(e.ptr, ServedPort(d))];
        UpdateEpollInstance(oldMask, e.ptr, e.accepted);
      }
    }

    method HandleCommand(msg: Message)
      requires MessageOk(Now(), msg)
      modifies this
      ensures Now() == HandleMessage(old(Now()), msg)
    {
      var ptr := GetDescriptorInfo(msg.fd, msg.listening);
      var d := heap[ptr].desc;
      var oldMask := MaskOf(d);
      match msg
      case ShutdownHalf(_, _) =>
      case CloseSocket(fd, _, port, last, accepted) =>
        if port != ILLEGAL_PORT {
          StoreDescriptor(ptr, Remove(d, port));
        }
        UpdateEpollInstance(oldMask, ptr, accepted);
        if d.OnePort? || last {
          socketMap := socketMap - {fd};
          heap := heap - {ptr};
        }
      case ReturnToken(_, _, port, count, accepted) =>
        StoreDescriptor(ptr, Return(d, port, count));
        log := log + [Returned(ptr, port, count)];
        UpdateEpollInstance(oldMask, ptr, accepted);
      case SetEventMask(_, _, port, mask, accepted) =>
        StoreDescriptor(ptr, SetMask(d, port, mask));
        if !HasPort(d, port) {
          log := log + [Joined(ptr, port)];
        }
        UpdateEpollInstance(oldMask, ptr, accepted);
    }
  }
}
