/**
 * The token accounting of the event handler's descriptors, on values.
 *
 * A descriptor with one port counts tokens for it; a listening descriptor keeps
 * an entry per port and the queue of the ports that are ready, meaning they want
 * to read and have tokens left.  Here are the operations, what each keeps of the
 * agreement between queue and entries, and how fairly a queue is served.
 */
module Backpressure {
  import opened Basics
  import opened CircularList

  type Port = int

  /** Dart's invalid port. */
  const ILLEGAL_PORT: Port := 0

  /** The events a port asks for. */
  datatype Mask = Mask(read: bool, write: bool)

  const NO_EVENTS := Mask(false, false)
  const READ_ONLY := Mask(true, false)

  // ---------- One port ----------

  const SINGLE_TOKENS := 16

  datatype Single = Single(port: Port, tokens: int, mask: Mask)

  const NEW_SINGLE := Single(ILLEGAL_PORT, SINGLE_TOKENS, NO_EVENTS)

  function SingleMask(s: Single): Mask {
    if s.tokens <= 0 then NO_EVENTS else s.mask
  }

  /** A port that asks for events is a real one. */
  predicate SingleOk(s: Single) {
    && s.tokens <= SINGLE_TOKENS
    && (s.mask != NO_EVENTS ==> s.port != ILLEGAL_PORT)
  }

  // ---------- Many ports ----------

  const LISTENING_TOKENS := 4

  datatype PortState = PortState(reading: bool, tokens: int)

  datatype Multi = Multi(entries: map<Port, PortState>, ready: seq<Port>)

  const NEW_MULTI := Multi(map[], [])

  predicate IsReady(e: PortState) {
    e.tokens > 0 && e.reading
  }

  predicate PortReady(m: Multi, p: Port) {
    p in m.entries && IsReady(m.entries[p])
  }

  /** The queue holds every ready port exactly once and nothing else. */
  ghost predicate Agrees(m: Multi) {
    && Distinct(m.ready)
    && forall p :: p in m.ready <==> PortReady(m, p)
  }

  function MultiMask(m: Multi): Mask {
    if m.ready != [] then READ_ONLY else NO_EVENTS
  }

  /** An entry changes; the queue follows when its readiness does. */
  function SetEntry(m: Multi, p: Port, e: PortState): Multi {
    Multi(m.entries[p := e],
          if PortReady(m, p) && !IsReady(e) then RemoveFirst(m.ready, p)
          else if !PortReady(m, p) && IsReady(e) then m.ready + [p]
          else m.ready)
  }

  function SetPortAndMask(m: Multi, p: Port, reading: bool): Multi {
    SetEntry(m, p, PortState(reading, if p in m.entries then m.entries[p].tokens else LISTENING_TOKENS))
  }

  function RemovePort(m: Multi, p: Port): Multi {
    Multi(m.entries - {p}, if PortReady(m, p) then RemoveFirst(m.ready, p) else m.ready)
  }

  function ReturnTokens(m: Multi, p: Port, count: nat): Multi {
    if p in m.entries then SetEntry(m, p, m.entries[p].(tokens := m.entries[p].tokens + count)) else m
  }

  /** The port an event goes to, at the head of the queue, and the state after it paid a token. */
  function NextPort(m: Multi): Port {
    if m.ready == [] then ILLEGAL_PORT else m.ready[0]
  }

  function Notify(m: Multi): Multi {
    if m.ready == [] || m.ready[0] !in m.entries then m
    else
      var p := m.ready[0];
      var e := m.entries[p].(tokens := m.entries[p].tokens - 1);
      Multi(m.entries[p := e], if e.tokens <= 0 then m.ready[1..] else m.ready[1..] + [p])
  }

  /** The ports among `ps` that have at most one token, and so none after paying one. */
  function LastToken(entries: map<Port, PortState>, ps: set<Port>): set<Port> {
    set p | p in ps && p in entries && entries[p].tokens <= 1
  }

  /** The ports `ps` pay a token each; those with none left leave the queue. */
  function NotifySome(m: Multi, ps: set<Port>): Multi {
    Multi(map p | p in m.entries ::
            if p in ps then m.entries[p].(tokens := m.entries[p].tokens - 1) else m.entries[p],
          Without(m.ready, LastToken(m.entries, ps)))
  }

  function NotifyAll(m: Multi): Multi {
    NotifySome(m, m.entries.Keys)
  }

  /** `s` without the members of `out`. */
  function Without<T(==, !new)>(s: seq<T>, out: set<T>): (r: seq<T>)
    ensures forall p :: p in r <==> p in s && p !in out
  {
    if s == [] then []
    else if s[0] in out then Without(s[1..], out)
    else [s[0]] + Without(s[1..], out)
  }

  lemma {:induction false} WithoutDistinct<T(!new)>(s: seq<T>, out: set<T>)
    requires Distinct(s)
    ensures Distinct(Without(s, out))
  {
    if s != [] {
      WithoutDistinct(s[1..], out);
      assert s[0] !in s[1..];
      DistinctCons(s[0], Without(s[1..], out));
    }
  }

  lemma {:induction false} WithoutAbsent<T(!new)>(s: seq<T>, out: set<T>, x: T)
    requires x !in s
    ensures Without(s, out + {x}) == Without(s, out)
  {
    if s != [] {
      WithoutAbsent(s[1..], out, x);
    }
  }

  /** Taking one more member out is deleting it. */
  lemma {:induction false} WithoutOneMore<T(!new)>(s: seq<T>, out: set<T>, x: T)
    requires Distinct(s) && x !in out
    ensures Without(s, out + {x}) == RemoveFirst(Without(s, out), x)
  {
    if s != [] {
      if s[0] == x {
        assert x !in s[1..];
        WithoutAbsent(s[1..], out, x);
      } else {
        WithoutOneMore(s[1..], out, x);
      }
    }
  }

  lemma DistinctCons<T>(p: T, s: seq<T>)
    requires Distinct(s) && p !in s
    ensures Distinct([p] + s)
  {
    var r := [p] + s;
    forall i, j | 0 <= i < j < |r|
      ensures r[i] != r[j]
    {
      assert r[j] == s[j - 1] && s[j - 1] in s;
      assert i > 0 ==> r[i] == s[i - 1];
    }
  }

  // ---------- Queue and entries stay in agreement ----------

  lemma {:induction false} RemoveFirstOfDistinct<T>(s: seq<T>, x: T)
    requires Distinct(s)
    ensures Distinct(RemoveFirst(s, x))
    ensures forall y :: y in RemoveFirst(s, x) <==> y in s && y != x
  {
    if s != [] {
      assert forall y :: y in s <==> y == s[0] || y in s[1..];
      RemoveFirstOfDistinct(s[1..], x);
      if s[0] != x {
        DistinctCons(s[0], RemoveFirst(s[1..], x));
      }
    }
  }

  lemma SetEntryAgrees(m: Multi, p: Port, e: PortState)
    requires Agrees(m)
    ensures Agrees(SetEntry(m, p, e))
  {
    RemoveFirstOfDistinct(m.ready, p);
    var m' := SetEntry(m, p, e);
    forall q
      ensures q in m'.ready <==> PortReady(m', q)
    {
      assert q in m.ready <==> PortReady(m, q);
    }
  }

  lemma RemovePortAgrees(m: Multi, p: Port)
    requires Agrees(m)
    ensures Agrees(RemovePort(m, p))
  {
    RemoveFirstOfDistinct(m.ready, p);
    var m' := RemovePort(m, p);
    forall q
      ensures q in m'.ready <==> PortReady(m', q)
    {
      assert q in m.ready <==> PortReady(m, q);
    }
  }

  lemma NotifyAgrees(m: Multi)
    requires Agrees(m)
    ensures Agrees(Notify(m))
  {
    if m.ready != [] {
      var m' := Notify(m);
      assert PortReady(m, m.ready[0]);
      forall q
        ensures q in m'.ready <==> PortReady(m', q)
      {
        assert q in m.ready <==> q == m.ready[0] || q in m.ready[1..];
        assert q in m.ready <==> PortReady(m, q);
      }
    }
  }

  lemma NotifyAllAgrees(m: Multi)
    requires Agrees(m)
    ensures Agrees(NotifyAll(m))
  {
    var m' := NotifyAll(m);
    WithoutDistinct(m.ready, LastToken(m.entries, m.entries.Keys));
    forall q
      ensures q in m'.ready <==> PortReady(m', q)
    {
      assert q in m.ready <==> PortReady(m, q);
    }
  }

  // ---------- Serving the queue ----------

  /** `k` notifications in a row. */
  function NotifyTimes(m: Multi, k: nat): Multi {
    if k == 0 then m else Notify(NotifyTimes(m, k - 1))
  }

  /** The port the notification after `k` others goes to. */
  function Pick(m: Multi, k: nat): Port {
    NextPort(NotifyTimes(m, k))
  }

  /** Tokens port `p` has paid in `k` notifications. */
  function Paid(m: Multi, k: nat, p: Port): int
    requires p in m.entries && p in NotifyTimes(m, k).entries
  {
    m.entries[p].tokens - NotifyTimes(m, k).entries[p].tokens
  }

  lemma {:induction false} NotifyTimesKeeps(m: Multi, k: nat)
    requires Agrees(m)
    ensures Agrees(NotifyTimes(m, k)) && NotifyTimes(m, k).entries.Keys == m.entries.Keys
  {
    if k > 0 {
      NotifyTimesKeeps(m, k - 1);
      NotifyAgrees(NotifyTimes(m, k - 1));
    }
  }

  /** The queue after `k` notifications within the first round still starts with the ports not yet served. */
  lemma {:induction false} FirstRound(m: Multi, k: nat)
    requires Agrees(m) && k <= |m.ready|
    ensures m.ready[k..] <= NotifyTimes(m, k).ready
  {
    if k > 0 {
      FirstRound(m, k - 1);
      NotifyTimesKeeps(m, k - 1);
      var n := NotifyTimes(m, k - 1);
      assert m.ready[k - 1..][0] == n.ready[0];
      assert PortReady(n, n.ready[0]);
      assert m.ready[k..] == m.ready[k - 1..][1..];
      assert m.ready[k..] <= n.ready[1..];
    }
  }

  /** With n ready ports, n notifications in a row pick each once, in queue order. */
  lemma RoundRobin(m: Multi, k: nat)
    requires Agrees(m) && k < |m.ready|
    ensures Pick(m, k) == m.ready[k]
  {
    FirstRound(m, k);
    assert m.ready[k..][0] == m.ready[k];
  }

  /**
   * In round `r`, the first `a` queued ports are still to be served and have
   * paid `r` tokens; the others have been served and have paid one more.
   */
  ghost predicate InRound(m: Multi, k: nat, r: nat, a: nat) {
    var n := NotifyTimes(m, k);
    && a <= |n.ready|
    && (forall i :: 0 <= i < |n.ready| ==> n.ready[i] in m.entries && n.ready[i] in n.entries)
    && (forall i :: 0 <= i < a ==> Paid(m, k, n.ready[i]) == r)
    && (forall i :: a <= i < |n.ready| ==> Paid(m, k, n.ready[i]) == r + 1)
  }

  lemma InRoundNext(m: Multi, k: nat, r: nat, a: nat)
    requires Agrees(m) && InRound(m, k, r, a) && a > 0
    ensures InRound(m, k + 1, r, a - 1)
  {
    NotifyTimesKeeps(m, k);
    NotifyTimesKeeps(m, k + 1);
    var n, n' := NotifyTimes(m, k), NotifyTimes(m, k + 1);
    assert PortReady(n, n.ready[0]);
    assert n' == Notify(n);
    forall i | 0 <= i < |n'.ready|
      ensures Paid(m, k + 1, n'.ready[i]) == if i < a - 1 then r else r + 1
    {
      if i < |n.ready| - 1 {
        assert n'.ready[i] == n.ready[i + 1] != n.ready[0];
      } else {
        assert n'.ready[i] == n.ready[0];
      }
    }
  }

  lemma {:induction false} AlwaysInRound(m: Multi, k: nat) returns (r: nat, a: nat)
    requires Agrees(m)
    ensures InRound(m, k, r, a)
  {
    if k == 0 {
      r, a := 0, |m.ready|;
      FirstStarts(m);
    } else {
      r, a := AlwaysInRound(m, k - 1);
      if a == 0 {
        r, a := r + 1, |NotifyTimes(m, k - 1).ready|;
        NextStarts(m, k - 1, r - 1);
      }
      if a > 0 {
        InRoundNext(m, k - 1, r, a);
        a := a - 1;
      } else {
        NobodyLeft(m, k - 1, r);
      }
    }
  }

  lemma FirstStarts(m: Multi)
    requires Agrees(m)
    ensures InRound(m, 0, 0, |m.ready|)
  {
    assert forall i :: 0 <= i < |m.ready| ==> PortReady(m, m.ready[i]);
  }

  /** At the end of a round everyone left has paid the same, and the next one starts. */
  lemma NextStarts(m: Multi, k: nat, r: nat)
    requires InRound(m, k, r, 0)
    ensures InRound(m, k, r + 1, |NotifyTimes(m, k).ready|)
  {
  }

  lemma NobodyLeft(m: Multi, k: nat, r: nat)
    requires InRound(m, k, r, 0) && NotifyTimes(m, k).ready == []
    ensures InRound(m, k + 1, r, 0)
  {
    assert NotifyTimes(m, k + 1) == NotifyTimes(m, k);
  }

  /** At any moment of a run of notifications, ports that still have tokens have paid the same, give or take one. */
  lemma Fair(m: Multi, k: nat, p: Port, q: Port)
    requires Agrees(m) && p in NotifyTimes(m, k).ready && q in NotifyTimes(m, k).ready
    ensures p in m.entries && q in m.entries && p in NotifyTimes(m, k).entries && q in NotifyTimes(m, k).entries
    ensures -1 <= Paid(m, k, p) - Paid(m, k, q) <= 1
  {
    var r, a := AlwaysInRound(m, k);
    var n := NotifyTimes(m, k);
    var i :| 0 <= i < |n.ready| && n.ready[i] == p;
    var j :| 0 <= j < |n.ready| && n.ready[j] == q;
  }

  /** The tokens of the queued ports. */
  function TokenSum(ready: seq<Port>, entries: map<Port, PortState>): int {
    if ready == [] then 0
    else (if ready[0] in entries then entries[ready[0]].tokens else 0) + TokenSum(ready[1..], entries)
  }

  lemma {:induction false} TokenSumSnoc(ready: seq<Port>, p: Port, entries: map<Port, PortState>)
    ensures TokenSum(ready + [p], entries) == TokenSum(ready, entries) + TokenSum([p], entries)
  {
    if ready == [] {
      assert ready + [p] == [p];
    } else {
      assert (ready + [p])[1..] == ready[1..] + [p];
      TokenSumSnoc(ready[1..], p, entries);
    }
  }

  lemma {:induction false} TokenSumFrame(ready: seq<Port>, a: map<Port, PortState>, b: map<Port, PortState>)
    requires forall p :: p in ready ==> p in a && p in b && a[p] == b[p]
    ensures TokenSum(ready, a) == TokenSum(ready, b)
  {
    if ready != [] {
      var first := ready[0];
      assert first in ready;
      TokenSumFrame(ready[1..], a, b);
    }
  }

  lemma {:induction false} TokenSumPositive(m: Multi, ready: seq<Port>)
    requires forall p :: p in ready ==> PortReady(m, p)
    ensures TokenSum(ready, m.entries) >= |ready|
  {
    if ready != [] {
      var first := ready[0];
      assert first in ready && forall p :: p in ready[1..] ==> p in ready;
      TokenSumPositive(m, ready[1..]);
    }
  }

  /** A notification costs the queue exactly one token. */
  lemma NotifyCostsOne(m: Multi)
    requires Agrees(m) && m.ready != []
    ensures TokenSum(Notify(m).ready, Notify(m).entries) == TokenSum(m.ready, m.entries) - 1
  {
    var p, rest := m.ready[0], m.ready[1..];
    var n := Notify(m);
    assert PortReady(m, p);
    assert forall q :: q in rest ==> q in m.ready && q != p;
    assert forall q :: q in rest ==> PortReady(m, q);
    TokenSumFrame(rest, m.entries, n.entries);
    TokenSumSnoc(rest, p, n.entries);
    assert [p][1..] == [];
  }

  lemma {:induction false} TokensAfter(m: Multi, k: nat)
    requires Agrees(m) && k <= TokenSum(m.ready, m.entries)
    ensures TokenSum(NotifyTimes(m, k).ready, NotifyTimes(m, k).entries) == TokenSum(m.ready, m.entries) - k
  {
    if k > 0 {
      TokensAfter(m, k - 1);
      NotifyTimesKeeps(m, k - 1);
      NotifyCostsOne(NotifyTimes(m, k - 1));
    }
  }

  /** Back-pressure: with no token returned, the descriptor stops asking for events after exactly the tokens it had. */
  lemma Exhausts(m: Multi, k: nat)
    requires Agrees(m) && k <= TokenSum(m.ready, m.entries)
    ensures MultiMask(NotifyTimes(m, k)) == NO_EVENTS <==> k == TokenSum(m.ready, m.entries)
  {
    TokensAfter(m, k);
    NotifyTimesKeeps(m, k);
    var n := NotifyTimes(m, k);
    TokenSumPositive(n, n.ready);
  }
}
