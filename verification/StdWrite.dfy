/**
 * Writing to standard output and error on Windows.
 *
 * A write is handed to a thread and reported as nothing written; only when the
 * caller presents the same bytes again is it told how many the thread got rid of.
 * The caller, the write thread and the completion handler take turns under one
 * monitor.  In every run the bytes given to the system are a prefix of what the
 * caller wants written, and exactly `thread_wrote_` bytes longer than what the
 * caller has been told; a write thread that woke up unasked would break that.
 */
module StdWrite {
  import opened Basics

  type Bytes = seq<bv8>

  const BUFFER_SIZE: nat := 64 * 1024

  /**
   * `stream` is all the caller wants written so far and `acked` how much of it has been reported as
   * written; `os` is what the system got.  `notified`: the thread has been woken and has not run yet.
   * `posted`: the thread is done with the pending write and its completion is under way.
   */
  datatype State = State(
    stream: Bytes,
    acked: nat,
    os: Bytes,
    pending: Option<Bytes>,
    wrote: nat,
    notified: bool,
    posted: bool,
    running: bool)

  const START := State([], 0, [], None, 0, false, false, false)

  /**
   * The caller wants more written; the caller writes `n` bytes from where it was told it is; the thread
   * runs and the system takes `k` bytes, none if the call fails; the completion is handled.
   */
  datatype Event = Append(bytes: Bytes) | Write(n: nat) | Wake(k: nat) | Complete

  predicate Enabled(s: State, e: Event) {
    match e
    case Append(_) => true
    case Write(n) => s.acked + n <= |s.stream|
    case Wake(k) => s.notified && (s.pending.Some? ==> k <= |s.pending.value|)
    case Complete => s.posted
  }

  /** `StdHandle::Write`: the state after, and what it returns. */
  function Written(s: State, buffer: Bytes): (State, nat) {
    var n := Min(|buffer|, BUFFER_SIZE);
    if s.pending.Some? then (s, 0)
    else if s.wrote > 0 then
      var r := Min(n, s.wrote);
      (s.(wrote := s.wrote - r, acked := s.acked + r), r)
    else (s.(pending := Some(buffer[..n]), notified := true, running := true), 0)
  }

  /** A turn of `RunWriteLoop`. */
  function Woken(s: State, k: nat): State
    requires s.pending.Some? ==> k <= |s.pending.value|
  {
    if s.pending.Some? then
      s.(os := s.os + s.pending.value[..k], wrote := s.wrote + k, notified := false, posted := true)
    else s.(notified := false)
  }

  function Step(s: State, e: Event): (State, nat)
    requires Enabled(s, e)
  {
    match e
    case Append(bytes) => (s.(stream := s.stream + bytes), 0)
    case Write(n) => Written(s, s.stream[s.acked..s.acked + n])
    case Wake(k) => (Woken(s, k), 0)
    case Complete => (s.(pending := None, posted := false), 0)
  }

  // ---------- Every run ----------

  /** The system got what was acknowledged and the next `wrote` bytes. */
  ghost predicate Faithful(s: State) {
    s.acked + s.wrote <= |s.stream| && s.os == s.stream[..s.acked + s.wrote]
  }

  ghost predicate PendingOk(s: State) {
    match s.pending
    case None => !s.notified && !s.posted
    case Some(p) =>
      && |p| <= BUFFER_SIZE && s.running && s.notified == !s.posted && s.wrote <= |p|
      && (!s.posted ==> s.wrote == 0 && s.acked + |p| <= |s.stream| && p == s.stream[s.acked..s.acked + |p|])
  }

  ghost predicate Inv(s: State) {
    Faithful(s) && PendingOk(s) && s.wrote <= BUFFER_SIZE
  }

  lemma StepKeeps(s: State, e: Event)
    requires Inv(s) && Enabled(s, e)
    ensures Inv(Step(s, e).0)
    ensures Step(s, e).0.acked == s.acked + Step(s, e).1
    ensures s.os <= Step(s, e).0.os && s.stream <= Step(s, e).0.stream
  {
    match e
    case Append(bytes) => AppendKeeps(s, bytes);
    case Write(n) => WriteKeeps(s, n);
    case Wake(k) => WakeKeeps(s, k);
    case Complete => CompleteKeeps(s);
  }

  lemma CompleteKeeps(s: State)
    requires Inv(s) && s.posted
    ensures Inv(s.(pending := None, posted := false))
  {
  }

  lemma WriteKeeps(s: State, n: nat)
    requires Inv(s) && s.acked + n <= |s.stream|
    ensures var (s', r) := Written(s, s.stream[s.acked..s.acked + n]);
            Inv(s') && s'.acked == s.acked + r && s'.os == s.os && s'.stream == s.stream
  {
    var m := Min(n, BUFFER_SIZE);
    assert s.stream[s.acked..s.acked + n][..m] == s.stream[s.acked..s.acked + m];
  }

  lemma WakeKeeps(s: State, k: nat)
    requires Inv(s) && Enabled(s, Wake(k))
    ensures var s' := Woken(s, k);
            Inv(s') && s'.acked == s.acked && s.os <= s'.os && s'.stream == s.stream
  {
    if s.pending.Some? {
      assert s.stream[..s.acked] + s.stream[s.acked..s.acked + |s.pending.value|][..k] == s.stream[..s.acked + k];
    }
  }

  lemma AppendKeeps(s: State, bytes: Bytes)
    requires Inv(s)
    ensures Inv(s.(stream := s.stream + bytes))
  {
    var stream := s.stream + bytes;
    assert stream[..s.acked + s.wrote] == s.stream[..s.acked + s.wrote];
    if s.pending.Some? && !s.posted {
      var n := |s.pending.value|;
      assert stream[s.acked..s.acked + n] == s.stream[s.acked..s.acked + n];
    }
  }

  /** Bytes reported as written are the presented ones, and the system has them. */
  lemma Told(s: State, buffer: Bytes)
    requires Inv(s) && s.acked + |buffer| <= |s.stream| && buffer == s.stream[s.acked..s.acked + |buffer|]
    ensures var r := Written(s, buffer).1;
            r <= |buffer| && s.acked + r <= |s.os| && s.os[s.acked..s.acked + r] == buffer[..r]
  {
    var r := Written(s, buffer).1;
    forall i | 0 <= i < r
      ensures s.os[s.acked..s.acked + r][i] == buffer[i]
    {
      assert s.os[s.acked + i] == s.stream[s.acked + i];
    }
  }

  lemma WriteIs(s: State, buffer: Bytes)
    requires Inv(s) && s.acked + |buffer| <= |s.stream| && buffer == s.stream[s.acked..s.acked + |buffer|]
    ensures Enabled(s, Write(|buffer|)) && Step(s, Write(|buffer|)) == Written(s, buffer)
    ensures var (s', r) := Written(s, buffer);
            && Inv(s') && s'.os == s.os && s'.acked == s.acked + r && r <= |buffer|
            && s.acked + r <= |s.os| && s.os[s.acked..s.acked + r] == buffer[..r]
  {
    StepKeeps(s, Write(|buffer|));
    Told(s, buffer);
  }

  function Sum(ns: seq<nat>): nat {
    if ns == [] then 0 else Sum(ns[..|ns| - 1]) + ns[|ns| - 1]
  }

  ghost predicate Possible(s: State, es: seq<Event>)
    decreases |es|, 0
  {
    es != [] ==> Possible(s, es[..|es| - 1]) && Enabled(After(s, es[..|es| - 1]).0, es[|es| - 1])
  }

  /** The state after a run, and the values the writes returned. */
  function After(s: State, es: seq<Event>): (State, seq<nat>)
    requires Possible(s, es)
    decreases |es|, 1
  {
    if es == [] then (s, [])
    else
      var (s1, rs) := After(s, es[..|es| - 1]);
      var (s2, r) := Step(s1, es[|es| - 1]);
      (s2, rs + [r])
  }

  /**
   * In every run no byte is lost, repeated or put in another place, and the caller has been told of
   * exactly as many bytes as the writes returned.
   */
  lemma {:induction false} EveryRun(es: seq<Event>)
    requires Possible(START, es)
    ensures var (s, rs) := After(START, es);
            Inv(s) && s.acked == Sum(rs) && s.os == s.stream[..s.acked + s.wrote]
    decreases |es|
  {
    if es != [] {
      var before := es[..|es| - 1];
      EveryRun(before);
      var (s, rs) := After(START, before);
      StepKeeps(s, es[|es| - 1]);
      var r := Step(s, es[|es| - 1]).1;
      assert (rs + [r])[..|rs|] == rs;
    }
  }

  /** When nothing is under way the system has exactly what was reported. */
  lemma Quiet(es: seq<Event>)
    requires Possible(START, es)
    requires var s := After(START, es).0; s.pending.None? && s.wrote == 0
    ensures var (s, rs) := After(START, es); Sum(rs) <= |s.stream| && s.os == s.stream[..Sum(rs)]
  {
    EveryRun(es);
  }

  // ---------- Every run can be finished ----------

  /** A turn that gets on: the thread runs and the system takes all, the completion is handled, or the caller writes. */
  function Useful(s: State): Event
    requires s.acked <= |s.stream|
  {
    if s.notified then Wake(if s.pending.Some? then |s.pending.value| else 0)
    else if s.posted then Complete
    else Write(|s.stream| - s.acked)
  }

  /** How far it is to the end: bytes not reported yet, and then the turns until some are. */
  function Distance(s: State): nat {
    6 * (if s.acked < |s.stream| then |s.stream| - s.acked else 0) +
    if s.notified then (if s.pending.Some? && s.pending.value != [] then 2 else 5)
    else if s.posted then (if s.wrote > 0 then 1 else 4)
    else if s.wrote > 0 then 0 else 3
  }

  lemma UsefulGetsOn(s: State)
    requires Inv(s) && s.acked < |s.stream|
    ensures var e := Useful(s);
            && Enabled(s, e) && !e.Append?
            && Inv(Step(s, e).0) && Step(s, e).0.stream == s.stream && Distance(Step(s, e).0) < Distance(s)
  {
    StepKeeps(s, Useful(s));
  }

  /**
   * Whatever has happened, the caller, the thread and the completion handler can bring it to the point where
   * the system has the whole stream and the caller has been told of all of it.
   */
  lemma {:induction false} CanFinish(es: seq<Event>) returns (all: seq<Event>)
    requires Possible(START, es)
    ensures es <= all && Possible(START, all) && forall i :: |es| <= i < |all| ==> !all[i].Append?
    ensures var (s, rs) := After(START, all);
            s.stream == After(START, es).0.stream && s.os == s.stream && Sum(rs) == |s.stream|
    decreases Distance(After(START, es).0)
  {
    EveryRun(es);
    var s := After(START, es).0;
    if s.acked == |s.stream| {
      all := es;
      assert s.stream[..s.acked] == s.stream;
    } else {
      UsefulGetsOn(s);
      OneTurnMore(es, Useful(s));
      all := CanFinish(es + [Useful(s)]);
    }
  }

  lemma OneTurnMore(es: seq<Event>, e: Event)
    requires Possible(START, es) && Enabled(After(START, es).0, e)
    ensures Possible(START, es + [e]) && After(START, es + [e]).0 == Step(After(START, es).0, e).0
    ensures After(START, es + [e]).1 == After(START, es).1 + [Step(After(START, es).0, e).1]
  {
    assert (es + [e])[..|es|] == es;
  }

  /** A first write that fits the buffer: queued, written whole, and reported when it is presented again. */
  lemma FirstWrite(b: Bytes)
    requires 0 < |b| <= 65536
    ensures var es := [Append(b), Write(|b|), Wake(|b|), Complete, Write(|b|)];
            Possible(START, es) && After(START, es).0.os == b && After(START, es).1 == [0, 0, 0, 0, |b|]
  {
    FirstWriteTaken(b);
    var es := [Append(b), Write(|b|), Wake(|b|)];
    OneTurnMore(es, Complete);
    OneTurnMore(es + [Complete], Write(|b|));
    assert es + [Complete] + [Write(|b|)] == [Append(b), Write(|b|), Wake(|b|), Complete, Write(|b|)];
  }

  lemma FirstWriteTaken(b: Bytes)
    requires 0 < |b| <= 65536
    ensures var es := [Append(b), Write(|b|), Wake(|b|)];
            && Possible(START, es) && After(START, es).0 == State(b, 0, b, Some(b), |b|, false, true, true)
            && After(START, es).1 == [0, 0, 0]
  {
    assert b[0..|b|] == b && b[..|b|] == b && [] + b == b && BUFFER_SIZE == 65536;
    OneTurnMore([], Append(b));
    assert [] + [Append(b)] == [Append(b)];
    assert After(START, [Append(b)]).0 == State(b, 0, [], None, 0, false, false, false);
    assert After(START, [Append(b)]).1 == [0];
    OneTurnMore([Append(b)], Write(|b|));
    assert [Append(b)] + [Write(|b|)] == [Append(b), Write(|b|)];
    assert After(START, [Append(b), Write(|b|)]).0 == State(b, 0, [], Some(b), 0, true, false, true);
    assert After(START, [Append(b), Write(|b|)]).1 == [0, 0];
    OneTurnMore([Append(b), Write(|b|)], Wake(|b|));
    assert [Append(b), Write(|b|)] + [Wake(|b|)] == [Append(b), Write(|b|), Wake(|b|)];
  }

  /** Waking up with nothing to do changes nothing; waking up again before the completion repeats bytes. */
  lemma UnaskedWake(s: State, k: nat)
    requires Inv(s) && !s.notified && (s.pending.Some? ==> k <= |s.pending.value|)
    requires s.acked + s.wrote + k <= |s.stream|
    ensures Faithful(Woken(s, k)) <==>
            s.pending.None? || s.pending.value[..k] == s.stream[s.acked + s.wrote..s.acked + s.wrote + k]
  {
    var at := s.acked + s.wrote;
    var next := s.stream[at..at + k];
    assert s.stream[..at + k] == s.stream[..at] + next;
    if s.pending.Some? && Faithful(Woken(s, k)) {
      var again := s.pending.value[..k];
      assert again == (s.os + again)[at..] && next == (s.os + next)[at..];
    }
  }

  // ---------- The handle ----------

  class StdHandle {
    var pendingWrite: Option<Bytes>
    var threadWrote: nat
    var writeThreadRunning: bool
    ghost var stream: Bytes
    ghost var acked: nat
    ghost var os: Bytes
    ghost var notified: bool
    ghost var posted: bool

    ghost function Now(): State
      reads this
    {
      State(stream, acked, os, pendingWrite, threadWrote, notified, posted, writeThreadRunning)
    }

    constructor ()
      ensures Now() == START && Inv(Now())
    {
      pendingWrite, threadWrote, writeThreadRunning := None, 0, false;
      stream, acked, os, notified, posted := [], 0, [], false, false;
    }

    /** The caller presents bytes that follow those it has been told are written. */
    method Write(buffer: Bytes) returns (r: nat)
      requires Inv(Now()) && acked + |buffer| <= |stream| && buffer == stream[acked..acked + |buffer|]
      modifies this
      ensures (Now(), r) == Step(old(Now()), Event.Write(|buffer|)) && Inv(Now())
      ensures r <= |buffer| && old(acked) + r <= |os| && os[old(acked)..old(acked) + r] == buffer[..r]
      ensures acked == old(acked) + r && os == old(os) && stream == old(stream) && posted == old(posted)
      ensures old(pendingWrite).Some? ==> r == 0 && Now() == old(Now())
      ensures old(pendingWrite).None? && old(threadWrote) == 0 ==>
                && r == 0 && threadWrote == 0 && notified && writeThreadRunning
                && pendingWrite == Some(if |buffer| <= 65536 then buffer else buffer[..65536])
      ensures old(pendingWrite).None? && old(threadWrote) > 0 ==>
                && r == Min(Min(|buffer|, 65536), old(threadWrote)) && threadWrote == old(threadWrote) - r
                && pendingWrite.None? && notified == old(notified)
    {
      WriteIs(Now(), buffer);
      r := Enqueue(buffer);
    }

    method Enqueue(buffer: Bytes) returns (r: nat)
      modifies this
      ensures (Now(), r) == Written(old(Now()), buffer)
      ensures r == if old(pendingWrite).Some? then 0 else Min(Min(|buffer|, 65536), old(threadWrote))
      ensures acked == old(acked) + r && threadWrote == old(threadWrote) - r
      ensures pendingWrite.None? <==> old(pendingWrite).None? && old(threadWrote) > 0
      ensures old(pendingWrite).None? && old(threadWrote) == 0 ==>
                pendingWrite == Some(buffer[..Min(|buffer|, 65536)]) && notified && writeThreadRunning
    {
      if pendingWrite.Some? {
        return 0;
      }
      var n := if |buffer| > BUFFER_SIZE then BUFFER_SIZE else |buffer|;
      if threadWrote > 0 {
        if n > threadWrote {
          n := threadWrote;
        }
        threadWrote := threadWrote - n;
        acked := acked + n;
        return n;
      }
      if !writeThreadRunning {
        writeThreadRunning := true;
      }
      pendingWrite := Some(buffer[..n]);
      notified := true;
      r := 0;
    }

    /** The thread's turn after a wake-up; `accepted` is what the system took. */
    method WriteSyncCompleteAsync(accepted: nat)
      requires Inv(Now()) && notified && pendingWrite.Some? && accepted <= |pendingWrite.value|
      modifies this
      ensures Now() == Step(old(Now()), Wake(accepted)).0 && Inv(Now())
      ensures os == old(os) + old(pendingWrite).value[..accepted] && threadWrote == old(threadWrote) + accepted
      ensures posted && !notified && pendingWrite == old(pendingWrite) && acked == old(acked)
    {
      StepKeeps(Now(), Wake(accepted));
      os := os + pendingWrite.value[..accepted];
      threadWrote := threadWrote + accepted;
      notified, posted := false, true;
    }

    method WriteComplete()
      requires Inv(Now()) && posted
      modifies this
      ensures Now() == Step(old(Now()), Complete).0 && Inv(Now())
      ensures pendingWrite.None? && !posted && threadWrote == old(threadWrote) && os == old(os) && acked == old(acked)
    {
      StepKeeps(Now(), Complete);
      pendingWrite := None;
      posted := false;
    }
  }
}
