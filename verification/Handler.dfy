/**
 * The Linux event handler whole: one array of ready descriptors holds sockets,
 * the timer descriptor and the interrupt pipe, and the pipe's messages are for
 * sockets, for timers or to shut down.  A turn handles the array and then, if the
 * pipe was readable, the messages.  Sockets and timers are those of `EventLoop`
 * and `Timers`: the handler is proved to put each through a run of its own, so
 * that what is proved of all their runs holds of the handler.
 */
module Handler {
  import opened Basics
  import E = EventLoop
  import T = Timers

  /** An entry of the array `epoll_wait` fills. */
  datatype Ready = Interrupt | TimerReady(now: nat) | Socket(event: E.Event)

  /** A message of the pipe; `Gone` is for a socket closed meanwhile. */
  datatype Message = Timer(port: int, timeout: int) | Shutdown | Gone | Command(msg: E.Message)

  /** What a turn finds: the array, and the messages that wait in the pipe. */
  datatype Turn = Turn(ready: seq<Ready>, msgs: seq<Message>)

  // ---------- The parts of a turn ----------

  function SocketEvents(ready: seq<Ready>): seq<E.Event> {
    if ready == [] then []
    else
      var before := SocketEvents(ready[..|ready| - 1]);
      match ready[|ready| - 1]
      case Socket(e) => before + [e]
      case _ => before
  }

  function TimerEvents(ready: seq<Ready>): seq<T.Event> {
    if ready == [] then []
    else
      var before := TimerEvents(ready[..|ready| - 1]);
      match ready[|ready| - 1]
      case TimerReady(now) => before + [T.Expire(now)]
      case _ => before
  }

  function Commands(msgs: seq<Message>): seq<E.Message> {
    if msgs == [] then []
    else
      var before := Commands(msgs[..|msgs| - 1]);
      match msgs[|msgs| - 1]
      case Command(msg) => before + [msg]
      case _ => before
  }

  function TimerUpdates(msgs: seq<Message>): seq<T.Event> {
    if msgs == [] then []
    else
      var before := TimerUpdates(msgs[..|msgs| - 1]);
      match msgs[|msgs| - 1]
      case Timer(port, timeout) => before + [T.Update(port, timeout)]
      case _ => before
  }

  /** Messages are read only when the pipe was readable. */
  function Read(t: Turn): seq<Message> {
    if Interrupt in t.ready then t.msgs else []
  }

  function SocketTurn(t: Turn): E.Turn {
    E.Turn(SocketEvents(t.ready), Commands(Read(t)))
  }

  function TimerPart(t: Turn): seq<T.Event> {
    TimerEvents(t.ready) + TimerUpdates(Read(t))
  }

  function SocketTurns(ts: seq<Turn>): seq<E.Turn> {
    if ts == [] then [] else SocketTurns(ts[..|ts| - 1]) + [SocketTurn(ts[|ts| - 1])]
  }

  function TimerHistory(ts: seq<Turn>): seq<T.Event> {
    if ts == [] then [] else TimerHistory(ts[..|ts| - 1]) + TimerPart(ts[|ts| - 1])
  }

  // ---------- One more of each ----------

  lemma NextReady(ready: seq<Ready>, i: nat)
    requires i < |ready|
    ensures SocketEvents(ready[..i + 1]) ==
            if ready[i].Socket? then SocketEvents(ready[..i]) + [ready[i].event] else SocketEvents(ready[..i])
    ensures TimerEvents(ready[..i + 1]) ==
            if ready[i].TimerReady? then TimerEvents(ready[..i]) + [T.Expire(ready[i].now)] else TimerEvents(ready[..i])
    ensures Interrupt in ready[..i + 1] <==> Interrupt in ready[..i] || ready[i].Interrupt?
  {
    assert ready[..i + 1] == ready[..i] + [ready[i]] && ready[..i + 1][..i] == ready[..i];
  }

  lemma NextMessage(msgs: seq<Message>, i: nat)
    requires i < |msgs|
    ensures Commands(msgs[..i + 1]) ==
            if msgs[i].Command? then Commands(msgs[..i]) + [msgs[i].msg] else Commands(msgs[..i])
    ensures TimerUpdates(msgs[..i + 1]) ==
            if msgs[i].Timer? then TimerUpdates(msgs[..i]) + [T.Update(msgs[i].port, msgs[i].timeout)]
            else TimerUpdates(msgs[..i])
    ensures Shutdown in msgs[..i + 1] <==> Shutdown in msgs[..i] || msgs[i].Shutdown?
  {
    assert msgs[..i + 1] == msgs[..i] + [msgs[i]] && msgs[..i + 1][..i] == msgs[..i];
  }

  lemma {:induction false} EarlierEvents(ready: seq<Ready>, i: nat)
    requires i <= |ready|
    ensures SocketEvents(ready[..i]) <= SocketEvents(ready)
    decreases |ready| - i
  {
    if i == |ready| {
      assert ready[..i] == ready;
    } else {
      NextReady(ready, i);
      EarlierEvents(ready, i + 1);
    }
  }

  lemma {:induction false} EarlierCommands(msgs: seq<Message>, i: nat)
    requires i <= |msgs|
    ensures Commands(msgs[..i]) <= Commands(msgs)
    decreases |msgs| - i
  {
    if i == |msgs| {
      assert msgs[..i] == msgs;
    } else {
      NextMessage(msgs, i);
      EarlierCommands(msgs, i + 1);
    }
  }

  lemma {:induction false} RunConcat(t: T.Timer, a: seq<T.Event>, b: seq<T.Event>)
    ensures T.Run(t, a + b) == T.Run(T.Run(t, a), b)
    decreases |b|
  {
    if b == [] {
      assert a + b == a;
    } else {
      assert (a + b)[..|a + b| - 1] == a + b[..|b| - 1];
      RunConcat(t, a, b[..|b| - 1]);
    }
  }

  lemma RunOne(t: T.Timer, es: seq<T.Event>, e: T.Event)
    ensures T.Run(t, es + [e]) == T.Step(T.Run(t, es), e)
  {
    assert (es + [e])[..|es|] == es;
  }

  lemma PostsOne(t: T.Timer, es: seq<T.Event>, e: T.Event)
    ensures T.PostsOf(t, es + [e]) == T.PostsOf(t, es) + T.PostedIn(T.Run(t, es), e)
  {
    assert (es + [e])[..|es|] == es;
  }

  lemma {:induction false} PostsConcat(t: T.Timer, a: seq<T.Event>, b: seq<T.Event>)
    ensures T.PostsOf(t, a + b) == T.PostsOf(t, a) + T.PostsOf(T.Run(t, a), b)
    decreases |b|
  {
    if b == [] {
      NothingMore(t, a, b);
    } else {
      var n := |b| - 1;
      PostsConcat(t, a, b[..n]);
      PostsLast(t, a, b[..n], b[n]);
      LastApart(a, b);
    }
  }

  lemma NothingMore(t: T.Timer, a: seq<T.Event>, b: seq<T.Event>)
    requires b == []
    ensures T.PostsOf(t, a + b) == T.PostsOf(t, a) + T.PostsOf(T.Run(t, a), b)
  {
    assert a + b == a;
  }

  lemma PostsLast(t: T.Timer, a: seq<T.Event>, b: seq<T.Event>, e: T.Event)
    requires T.PostsOf(t, a + b) == T.PostsOf(t, a) + T.PostsOf(T.Run(t, a), b)
    ensures T.PostsOf(t, a + b + [e]) == T.PostsOf(t, a) + T.PostsOf(T.Run(t, a), b + [e])
  {
    RunConcat(t, a, b);
    PostsOne(t, a + b, e);
    PostsOne(T.Run(t, a), b, e);
    Joined(T.PostsOf(t, a), T.PostsOf(T.Run(t, a), b), T.PostedIn(T.Run(t, a + b), e));
  }

  lemma Joined(a: seq<int>, b: seq<int>, c: seq<int>)
    ensures a + b + c == a + (b + c)
  {
  }

  lemma {:induction false} UpdatesPostNothing(t: T.Timer, es: seq<T.Event>)
    requires forall i :: 0 <= i < |es| ==> es[i].Update?
    ensures T.PostsOf(t, es) == []
  {
    if es != [] {
      UpdatesPostNothing(t, es[..|es| - 1]);
    }
  }

  // ---------- What can happen ----------

  /** The kernel reports each registered descriptor once at most, and the timer only when its time has come. */
  ghost predicate TurnPossible(s: E.State, timer: T.Timer, t: Turn) {
    && E.TurnPossible(s, SocketTurn(t))
    && |TimerEvents(t.ready)| <= 1
    && forall i :: 0 <= i < |TimerEvents(t.ready)| ==> T.Enabled(timer, TimerEvents(t.ready)[i])
  }

  lemma {:induction false} UpdatesAreUpdates(msgs: seq<Message>)
    ensures forall i :: 0 <= i < |TimerUpdates(msgs)| ==> TimerUpdates(msgs)[i].Update?
  {
    if msgs != [] {
      UpdatesAreUpdates(msgs[..|msgs| - 1]);
    }
  }

  lemma {:induction false} StaysPossible(es: seq<T.Event>, more: seq<T.Event>)
    requires T.Possible(es) && forall i :: 0 <= i < |more| ==> more[i].Update?
    ensures T.Possible(es + more)
    decreases |more|
  {
    if more == [] {
      assert es + more == es;
    } else {
      var n := |more| - 1;
      StaysPossible(es, more[..n]);
      T.PossibleSnoc(es + more[..n], more[n]);
      LastApart(es, more);
    }
  }

  lemma LastApart(es: seq<T.Event>, more: seq<T.Event>)
    requires more != []
    ensures var n := |more| - 1; more == more[..n] + [more[n]] && es + more == es + more[..n] + [more[n]]
  {
  }

  lemma Regrouped(a: seq<T.Event>, b: seq<T.Event>, c: seq<T.Event>)
    ensures a + b + c == a + (b + c)
  {
  }

  lemma ExpiryPossible(es: seq<T.Event>, expired: seq<T.Event>)
    requires T.Possible(es) && |expired| <= 1 && forall i :: 0 <= i < |expired| ==> T.Enabled(T.Run(T.INIT, es), expired[i])
    ensures T.Possible(es + expired)
  {
    if expired == [] {
      assert es + expired == es;
    } else {
      assert expired == [expired[0]];
      T.PossibleSnoc(es, expired[0]);
    }
  }

  lemma TimerPartPossible(es: seq<T.Event>, t: Turn)
    requires T.Possible(es) && |TimerEvents(t.ready)| <= 1
    requires forall i :: 0 <= i < |TimerEvents(t.ready)| ==> T.Enabled(T.Run(T.INIT, es), TimerEvents(t.ready)[i])
    ensures T.Possible(es + TimerPart(t))
  {
    var expired, updates := TimerEvents(t.ready), TimerUpdates(Read(t));
    ExpiryPossible(es, expired);
    UpdatesAreUpdates(Read(t));
    StaysPossible(es + expired, updates);
    Regrouped(es, expired, updates);
  }

  lemma TurnAdded(ts: seq<E.Turn>, t: E.Turn)
    requires E.RunPossible(ts) && E.TurnPossible(E.Run(ts), t)
    ensures E.RunPossible(ts + [t]) && E.Run(ts + [t]) == E.HandleTurn(E.Run(ts), t)
  {
    var all := ts + [t];
    assert all[..|ts|] == ts;
    forall k | 0 <= k < |all|
      ensures E.TurnPossible(E.Run(all[..k]), all[k])
    {
      assert all[..k] == ts[..k];
    }
  }

  /** A turn more is a turn more for the sockets, and so many events more for the timers. */
  lemma Recorded(turns: seq<Turn>, t: Turn)
    requires E.RunPossible(SocketTurns(turns)) && T.Possible(TimerHistory(turns))
    requires TurnPossible(E.Run(SocketTurns(turns)), T.Run(T.INIT, TimerHistory(turns)), t)
    ensures E.RunPossible(SocketTurns(turns + [t])) && T.Possible(TimerHistory(turns + [t]))
    ensures E.Run(SocketTurns(turns + [t])) == E.HandleTurn(E.Run(SocketTurns(turns)), SocketTurn(t))
    ensures T.Run(T.INIT, TimerHistory(turns + [t])) == T.Run(T.Run(T.INIT, TimerHistory(turns)), TimerPart(t))
    ensures T.PostsOf(T.INIT, TimerHistory(turns + [t])) ==
            T.PostsOf(T.INIT, TimerHistory(turns)) + T.PostsOf(T.Run(T.INIT, TimerHistory(turns)), TimerPart(t))
  {
    OneTurnMore(turns, t);
    TurnAdded(SocketTurns(turns), SocketTurn(t));
    TimerPartPossible(TimerHistory(turns), t);
    RunConcat(T.INIT, TimerHistory(turns), TimerPart(t));
    PostsConcat(T.INIT, TimerHistory(turns), TimerPart(t));
  }

  lemma OneTurnMore(turns: seq<Turn>, t: Turn)
    ensures SocketTurns(turns + [t]) == SocketTurns(turns) + [SocketTurn(t)]
    ensures TimerHistory(turns + [t]) == TimerHistory(turns) + TimerPart(t)
  {
    assert (turns + [t])[..|turns|] == turns;
  }

  lemma TurnIs(s: E.State, timer: T.Timer, t: Turn)
    ensures E.HandleTurn(s, SocketTurn(t)) ==
            var batch := E.HandleBatch(s, SocketEvents(t.ready));
            if Interrupt in t.ready then E.HandleMessages(batch, Commands(t.msgs)) else batch
    ensures T.Run(timer, TimerPart(t)) ==
            var expired := T.Run(timer, TimerEvents(t.ready));
            if Interrupt in t.ready then T.Run(expired, TimerUpdates(t.msgs)) else expired
  {
    RunConcat(timer, TimerEvents(t.ready), TimerUpdates(Read(t)));
  }

  /** A turn posts to the port at the root when the timer was ready, and to nobody otherwise. */
  lemma PostsOfTurn(timer: T.Timer, t: Turn)
    requires |TimerEvents(t.ready)| <= 1
    ensures T.PostsOf(timer, TimerEvents(t.ready)) ==
            if timer.heap == [] || TimerEvents(t.ready) == [] then [] else [timer.heap[0].value]
  {
    var expired := TimerEvents(t.ready);
    TimerEventsExpire(t.ready);
    if expired != [] {
      assert expired[..0] == [];
    }
  }

  lemma MessagesPostNothing(timer: T.Timer, t: Turn)
    ensures T.PostsOf(timer, TimerPart(t)) == T.PostsOf(timer, TimerEvents(t.ready))
  {
    var expired := TimerEvents(t.ready);
    PostsConcat(timer, expired, TimerUpdates(Read(t)));
    UpdatesAreUpdates(Read(t));
    UpdatesPostNothing(T.Run(timer, expired), TimerUpdates(Read(t)));
  }

  lemma {:induction false} TimerEventsExpire(ready: seq<Ready>)
    ensures forall i :: 0 <= i < |TimerEvents(ready)| ==> TimerEvents(ready)[i].Expire?
  {
    if ready != [] {
      TimerEventsExpire(ready[..|ready| - 1]);
    }
  }

  /** Sockets and timers are each where a possible run of their own brings them, and the posts are that run's. */
  ghost predicate Reached(turns: seq<Turn>, s: E.State, timer: T.Timer, posts: seq<int>) {
    && E.RunPossible(SocketTurns(turns)) && s == E.Run(SocketTurns(turns))
    && T.Possible(TimerHistory(turns)) && timer == T.Run(T.INIT, TimerHistory(turns))
    && posts == T.PostsOf(T.INIT, TimerHistory(turns))
  }

  lemma ReachedNext(turns: seq<Turn>, t: Turn, s: E.State, timer: T.Timer, posts: seq<int>)
    requires Reached(turns, s, timer, posts) && TurnPossible(s, timer, t)
    ensures var batch, expired := E.HandleBatch(s, SocketEvents(t.ready)), T.Run(timer, TimerEvents(t.ready));
            Reached(turns + [t],
                    if Interrupt in t.ready then E.HandleMessages(batch, Commands(t.msgs)) else batch,
                    if Interrupt in t.ready then T.Run(expired, TimerUpdates(t.msgs)) else expired,
                    posts + T.PostsOf(timer, TimerEvents(t.ready)))
  {
    TurnIs(s, timer, t);
    MessagesPostNothing(timer, t);
    Recorded(turns, t);
  }

  // ---------- The handler ----------

  class EventHandler {
    const sockets: E.EventHandlerImplementation
    const timers: T.TimerLoop
    var shutdown: bool
    /** The turns so far. */
    ghost var turns: seq<Turn>

    /** Sockets and timers are each where a possible run of their own, read off the turns, has brought them. */
    ghost predicate Valid()
      reads this, sockets, timers, timers.timeouts
    {
      timers.Valid() && Reached(turns, sockets.Now(), timers.State(), timers.posts)
    }

    constructor ()
      ensures Valid() && !shutdown && turns == []
      ensures fresh(sockets) && fresh(timers) && fresh(timers.timeouts)
    {
      sockets := new E.EventHandlerImplementation();
      timers := new T.TimerLoop();
      shutdown, turns := false, [];
    }

    /** A turn: the whole array, and then the messages if the pipe was readable. */
    method HandleEvents(t: Turn)
      requires Valid() && TurnPossible(sockets.Now(), timers.State(), t)
      modifies this, sockets, timers, timers.timeouts
      ensures Valid() && turns == old(turns) + [t]
      ensures shutdown <==> old(shutdown) || (Interrupt in t.ready && Shutdown in t.msgs)
      ensures var batch := E.HandleBatch(old(sockets.Now()), SocketEvents(t.ready));
              sockets.Now() == if Interrupt in t.ready then E.HandleMessages(batch, Commands(t.msgs)) else batch
      ensures var expired := T.Run(old(timers.State()), TimerEvents(t.ready));
              timers.State() == if Interrupt in t.ready then T.Run(expired, TimerUpdates(t.msgs)) else expired
      ensures var heap := old(timers.timeouts.minHeap);
              timers.posts == if heap == [] || TimerEvents(t.ready) == [] then old(timers.posts)
                              else old(timers.posts) + [heap[0].value]
    {
      ghost var s, timer := sockets.Now(), timers.State();
      E.EveryRun(SocketTurns(turns));
      TakeTurn(t);
      Record(t, s, timer, old(timers.posts));
    }

    ghost method Record(t: Turn, s: E.State, timer: T.Timer, posts: seq<int>)
      requires timers.Valid() && TurnPossible(s, timer, t) && Reached(turns, s, timer, posts)
      requires var batch := E.HandleBatch(s, SocketEvents(t.ready));
               sockets.Now() == if Interrupt in t.ready then E.HandleMessages(batch, Commands(t.msgs)) else batch
      requires var expired := T.Run(timer, TimerEvents(t.ready));
               timers.State() == if Interrupt in t.ready then T.Run(expired, TimerUpdates(t.msgs)) else expired
      requires timers.posts == posts + T.PostsOf(timer, TimerEvents(t.ready))
      modifies `turns
      ensures Valid() && turns == old(turns) + [t]
    {
      ReachedNext(turns, t, s, timer, posts);
      turns := turns + [t];
    }

    method TakeTurn(t: Turn)
      requires E.Inv(sockets.Now()) && TurnPossible(sockets.Now(), timers.State(), t) && timers.Valid()
      modifies `shutdown, sockets, timers, timers.timeouts
      ensures timers.Valid()
      ensures shutdown <==> old(shutdown) || (Interrupt in t.ready && Shutdown in t.msgs)
      ensures var batch := E.HandleBatch(old(sockets.Now()), SocketEvents(t.ready));
              sockets.Now() == if Interrupt in t.ready then E.HandleMessages(batch, Commands(t.msgs)) else batch
      ensures var expired := T.Run(old(timers.State()), TimerEvents(t.ready));
              timers.State() == if Interrupt in t.ready then T.Run(expired, TimerUpdates(t.msgs)) else expired
      ensures timers.posts == old(timers.posts) + T.PostsOf(old(timers.State()), TimerEvents(t.ready))
      ensures var heap := old(timers.timeouts.minHeap);
              timers.posts == if heap == [] || TimerEvents(t.ready) == [] then old(timers.posts)
                              else old(timers.posts) + [heap[0].value]
    {
      ghost var s := sockets.Now();
      PostsOfTurn(timers.State(), t);
      var interruptSeen := HandleReady(t.ready);
      if interruptSeen {
        E.BatchKeeps(s, SocketEvents(t.ready), 0);
        HandleInterruptFd(t.msgs);
      }
    }

    /** The loop over the array; whether the pipe was readable. */
    method HandleReady(ready: seq<Ready>) returns (interruptSeen: bool)
      requires E.Inv(sockets.Now()) && E.BatchPossible(sockets.Now(), SocketEvents(ready)) && timers.Valid()
      modifies sockets, timers, timers.timeouts
      ensures sockets.Now() == E.HandleBatch(old(sockets.Now()), SocketEvents(ready))
      ensures timers.Valid() && timers.State() == T.Run(old(timers.State()), TimerEvents(ready))
      ensures timers.posts == old(timers.posts) + T.PostsOf(old(timers.State()), TimerEvents(ready))
      ensures interruptSeen <==> Interrupt in ready
    {
      ghost var s, timer := sockets.Now(), timers.State();
      interruptSeen := false;
      for i := 0 to |ready|
        invariant timers.Valid() && ReadyDone(ready[..i], s, timer, sockets.Now(), timers.State())
        invariant timers.posts == old(timers.posts) + T.PostsOf(timer, TimerEvents(ready[..i]))
        invariant interruptSeen <==> Interrupt in ready[..i]
      {
        EntryDone(ready, i, s, timer, sockets.Now(), timers.State());
        EntryPosts(ready, i, timer, old(timers.posts));
        HandleEntry(ready[i]);
        interruptSeen := interruptSeen || ready[i].Interrupt?;
      }
      assert ready[..|ready|] == ready;
    }

    method HandleEntry(r: Ready)
      requires timers.Valid() && (r.Socket? ==> r.event.ptr in sockets.heap)
      modifies sockets, timers, timers.timeouts
      ensures timers.Valid()
      ensures sockets.Now() == SocketAfter(old(sockets.Now()), r) && timers.State() == TimerAfter(old(timers.State()), r)
      ensures timers.posts == old(timers.posts) + PostsAfter(old(timers.State()), r)
    {
      match r
      case Interrupt =>
      case TimerReady(now) => timers.HandleTimerEvent(now);
      case Socket(e) => sockets.HandleSocketEvent(e);
    }

    /** The loop over the messages. */
    method HandleInterruptFd(msgs: seq<Message>)
      requires E.Inv(sockets.Now()) && E.MessagesOk(sockets.Now(), Commands(msgs)) && timers.Valid()
      modifies this`shutdown, sockets, timers`timerFd, timers.timeouts
      ensures sockets.Now() == E.HandleMessages(old(sockets.Now()), Commands(msgs))
      ensures timers.Valid() && timers.State() == T.Run(old(timers.State()), TimerUpdates(msgs))
      ensures timers.posts == old(timers.posts)
      ensures shutdown <==> old(shutdown) || Shutdown in msgs
    {
      ghost var s, timer := sockets.Now(), timers.State();
      for i := 0 to |msgs|
        invariant timers.Valid() && MessagesDone(msgs[..i], s, timer, sockets.Now(), timers.State())
        invariant shutdown <==> old(shutdown) || Shutdown in msgs[..i]
      {
        MessageDone(msgs, i, s, timer, sockets.Now(), timers.State());
        HandleMessage(msgs[i]);
      }
      assert msgs[..|msgs|] == msgs;
    }

    method HandleMessage(m: Message)
      requires timers.Valid() && (m.Command? ==> E.MessageOk(sockets.Now(), m.msg))
      modifies this`shutdown, sockets, timers`timerFd, timers.timeouts
      ensures timers.Valid() && (shutdown <==> old(shutdown) || m == Shutdown)
      ensures sockets.Now() == SocketTold(old(sockets.Now()), m) && timers.State() == TimerTold(old(timers.State()), m)
    {
      match m
      case Timer(port, timeout) => timers.HandleTimerMessage(port, timeout);
      case Shutdown => shutdown := true;
      case Gone =>
      case Command(msg) => sockets.HandleCommand(msg);
    }
  }

  // ---------- One entry, one message ----------

  function SocketAfter(s: E.State, r: Ready): E.State
    requires r.Socket? ==> r.event.ptr in s.heap
  {
    if r.Socket? then E.HandleEvent(s, r.event) else s
  }

  function TimerAfter(t: T.Timer, r: Ready): T.Timer {
    if r.TimerReady? then T.Step(t, T.Expire(r.now)) else t
  }

  function PostsAfter(t: T.Timer, r: Ready): seq<int> {
    if r.TimerReady? then T.PostedIn(t, T.Expire(r.now)) else []
  }

  function SocketTold(s: E.State, m: Message): E.State
    requires m.Command? ==> E.MessageOk(s, m.msg)
  {
    if m.Command? then E.HandleMessage(s, m.msg) else s
  }

  function TimerTold(t: T.Timer, m: Message): T.Timer {
    if m.Timer? then T.Step(t, T.Update(m.port, m.timeout)) else t
  }

  /** Sockets and timers have seen their entries of the array so far. */
  ghost predicate ReadyDone(ready: seq<Ready>, s: E.State, timer: T.Timer, now: E.State, t: T.Timer) {
    now == E.HandleBatch(s, SocketEvents(ready)) && t == T.Run(timer, TimerEvents(ready))
  }

  /** Sockets and timers have seen their messages so far. */
  ghost predicate MessagesDone(msgs: seq<Message>, s: E.State, timer: T.Timer, now: E.State, t: T.Timer) {
    now == E.HandleMessages(s, Commands(msgs)) && t == T.Run(timer, TimerUpdates(msgs))
  }

  lemma EntryDone(ready: seq<Ready>, i: nat, s: E.State, timer: T.Timer, now: E.State, t: T.Timer)
    requires E.Inv(s) && E.BatchPossible(s, SocketEvents(ready)) && i < |ready|
    requires ReadyDone(ready[..i], s, timer, now, t)
    ensures ready[i].Socket? ==> ready[i].event.ptr in now.heap
    ensures ReadyDone(ready[..i + 1], s, timer, SocketAfter(now, ready[i]), TimerAfter(t, ready[i]))
    ensures Interrupt in ready[..i + 1] <==> Interrupt in ready[..i] || ready[i].Interrupt?
  {
    NextReady(ready, i);
    match ready[i]
    case Interrupt =>
    case TimerReady(at) => RunOne(timer, TimerEvents(ready[..i]), T.Expire(at));
    case Socket(_) => EventIsNext(s, ready, i);
  }

  lemma EntryPosts(ready: seq<Ready>, i: nat, timer: T.Timer, posts: seq<int>)
    requires i < |ready|
    ensures posts + T.PostsOf(timer, TimerEvents(ready[..i + 1])) ==
            posts + T.PostsOf(timer, TimerEvents(ready[..i])) +
            PostsAfter(T.Run(timer, TimerEvents(ready[..i])), ready[i])
  {
    NextReady(ready, i);
    if ready[i].TimerReady? {
      PostsOne(timer, TimerEvents(ready[..i]), T.Expire(ready[i].now));
    }
  }

  lemma MessageDone(msgs: seq<Message>, i: nat, s: E.State, timer: T.Timer, now: E.State, t: T.Timer)
    requires E.MessagesOk(s, Commands(msgs)) && i < |msgs| && MessagesDone(msgs[..i], s, timer, now, t)
    ensures msgs[i].Command? ==> E.MessageOk(now, msgs[i].msg)
    ensures MessagesDone(msgs[..i + 1], s, timer, SocketTold(now, msgs[i]), TimerTold(t, msgs[i]))
    ensures Shutdown in msgs[..i + 1] <==> Shutdown in msgs[..i] || msgs[i].Shutdown?
  {
    NextMessage(msgs, i);
    match msgs[i]
    case Timer(port, timeout) => RunOne(timer, TimerUpdates(msgs[..i]), T.Update(port, timeout));
    case Shutdown =>
    case Gone =>
    case Command(_) => CommandIsNext(s, msgs, i);
  }

  lemma EventIsNext(s: E.State, ready: seq<Ready>, i: nat)
    requires E.Inv(s) && E.BatchPossible(s, SocketEvents(ready)) && i < |ready| && ready[i].Socket?
    ensures var t := E.HandleBatch(s, SocketEvents(ready[..i]));
            && ready[i].event.ptr in t.heap
            && E.HandleBatch(s, SocketEvents(ready[..i]) + [ready[i].event]) == E.HandleEvent(t, ready[i].event)
  {
    var es, before, e := SocketEvents(ready), SocketEvents(ready[..i]), ready[i].event;
    NextReady(ready, i);
    EarlierEvents(ready, i);
    EarlierEvents(ready, i + 1);
    assert es[..|before|] == before && es[|before|] == e;
    E.EventsDelivered(s, es, |before|);
    assert (before + [e])[..|before|] == before;
  }

  lemma CommandIsNext(s: E.State, msgs: seq<Message>, i: nat)
    requires E.MessagesOk(s, Commands(msgs)) && i < |msgs| && msgs[i].Command?
    ensures var t := E.HandleMessages(s, Commands(msgs[..i]));
            && E.MessageOk(t, msgs[i].msg)
            && E.HandleMessages(s, Commands(msgs[..i]) + [msgs[i].msg]) == E.HandleMessage(t, msgs[i].msg)
  {
    var all, before, msg := Commands(msgs), Commands(msgs[..i]), msgs[i].msg;
    NextMessage(msgs, i);
    EarlierCommands(msgs, i);
    EarlierCommands(msgs, i + 1);
    assert all[..|before|] == before && all[|before|] == msg;
    assert (before + [msg])[..|before|] == before;
  }
}
