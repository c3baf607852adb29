/**
 * Edge-triggered events simulated over level-triggered ones on Fuchsia.
 *
 * Each packet carries every signal that was up when it was queued, so the handle
 * keeps three flags that strike bits out of an event mask until the Dart thread
 * acts.  The operations take turns under a mutex in any order.  Which bits get
 * through is stated here in terms of the history of operations alone, and proved
 * of the flags for every history.
 */
module EdgeTrigger {

  /** The bits of an event mask; `rest` are those that are never struck out. */
  datatype Mask = Mask(inEvent: bool, outEvent: bool, closeEvent: bool, rest: bv8)

  /** `available` is what is left to read as far as the handle has tracked it. */
  datatype State = State(writeEnabled: bool, readEnabled: bool, closeEnabled: bool, available: int)

  /** The operations with what the system answered. */
  datatype Operation =
    | Toggle(mask: Mask, bytes: int)
    | Read(count: int)
    | Write
    | Accept
    | Available(bytes: int)

  // ---------- The code ----------

  /** `ToggleEvents`: the mask let through and the flags after it. */
  function Toggled(s: State, mask: Mask, bytes: int): (Mask, State) {
    var outEvent := mask.outEvent && s.writeEnabled;
    var inEvent := mask.inEvent && s.readEnabled;
    var closeEvent := mask.closeEvent && s.closeEnabled;
    (mask.(inEvent := inEvent, outEvent := outEvent, closeEvent := closeEvent),
     s.(writeEnabled := s.writeEnabled && !outEvent,
        readEnabled := s.readEnabled && !(inEvent && (bytes != 0 || mask.closeEvent)),
        closeEnabled := s.closeEnabled && !closeEvent))
  }

  /** `Read`: the tracked bytes never go below zero, and read events come back when none is left or on an error. */
  function AfterRead(s: State, count: int): State {
    var available :=
      if count > 0 then (if s.available >= count then s.available - count else 0) else s.available;
    s.(available := available, readEnabled := s.readEnabled || available == 0 || count < 0)
  }

  function Step(s: State, op: Operation): State {
    match op
    case Toggle(mask, bytes) => Toggled(s, mask, bytes).1
    case Read(count) => AfterRead(s, count)
    case Write => s.(writeEnabled := true)
    case Accept => s.(readEnabled := true)
    case Available(bytes) => s.(available := if bytes < 0 then 1 else bytes)
  }

  /** The tracked count starts out as anything. */
  function Start(available: int): State {
    State(true, true, true, available)
  }

  function After(available: int, ops: seq<Operation>): State {
    if ops == [] then Start(available) else Step(After(available, ops[..|ops| - 1]), ops[|ops| - 1])
  }

  /** What the operation at `i` lets through; nothing if it is not a toggle. */
  function Delivered(available: int, ops: seq<Operation>, i: nat): Mask
    requires i < |ops|
  {
    if ops[i].Toggle? then Toggled(After(available, ops[..i]), ops[i].mask, ops[i].bytes).0
    else Mask(false, false, false, 0)
  }

  // ---------- In terms of the history ----------

  /** The bytes left to read, as far as they were asked for and read. */
  function Tracked(available: int, ops: seq<Operation>, n: nat): int
    requires n <= |ops|
  {
    if n == 0 then available
    else
      var before := Tracked(available, ops, n - 1);
      match ops[n - 1]
      case Available(bytes) => if bytes < 0 then 1 else bytes
      case Read(count) => if count <= 0 then before else if before >= count then before - count else 0
      case _ => before
  }

  /** An operation that brings read events back: an accept, a failed read, or one that left nothing. */
  predicate Rearms(available: int, ops: seq<Operation>, k: nat)
    requires k < |ops|
  {
    || ops[k].Accept?
    || (ops[k].Read? && (ops[k].count < 0 || Tracked(available, ops, k + 1) == 0))
  }

  /** A delivered in-event that comes with bytes or with a close. */
  predicate Suppresses(available: int, ops: seq<Operation>, k: nat)
    requires k < |ops|
  {
    Delivered(available, ops, k).inEvent && (ops[k].bytes != 0 || ops[k].mask.closeEvent)
  }

  /** No out-event has been let through since the last write. */
  ghost predicate OutDue(available: int, ops: seq<Operation>, n: nat)
    requires n <= |ops|
  {
    forall k :: 0 <= k < n && Delivered(available, ops, k).outEvent ==> exists j :: k < j < n && ops[j].Write?
  }

  /** No in-event has been let through with something to read since read events came back. */
  ghost predicate InDue(available: int, ops: seq<Operation>, n: nat)
    requires n <= |ops|
  {
    forall k :: 0 <= k < n && Suppresses(available, ops, k) ==> exists j :: k < j < n && Rearms(available, ops, j)
  }

  ghost predicate CloseDue(available: int, ops: seq<Operation>, n: nat)
    requires n <= |ops|
  {
    forall k :: 0 <= k < n ==> !Delivered(available, ops, k).closeEvent
  }

  // ---------- The flags say what the history says ----------

  lemma OutStep(available: int, ops: seq<Operation>, n: nat)
    requires n < |ops|
    ensures OutDue(available, ops, n + 1) <==>
            ops[n].Write? || (OutDue(available, ops, n) && !Delivered(available, ops, n).outEvent)
  {
    if OutDue(available, ops, n + 1) && !ops[n].Write? {
      forall k | 0 <= k < n && Delivered(available, ops, k).outEvent
        ensures exists j :: k < j < n && ops[j].Write?
      {
        var j :| k < j < n + 1 && ops[j].Write?;
        assert j < n;
      }
    }
  }

  lemma InStep(available: int, ops: seq<Operation>, n: nat)
    requires n < |ops|
    ensures InDue(available, ops, n + 1) <==>
            Rearms(available, ops, n) || (InDue(available, ops, n) && !Suppresses(available, ops, n))
  {
    if InDue(available, ops, n + 1) && !Rearms(available, ops, n) {
      forall k | 0 <= k < n && Suppresses(available, ops, k)
        ensures exists j :: k < j < n && Rearms(available, ops, j)
      {
        var j :| k < j < n + 1 && Rearms(available, ops, j);
        assert j < n;
      }
    }
  }

  /** What one operation does to the flags. */
  lemma FlagStep(available: int, ops: seq<Operation>, n: nat)
    requires n < |ops| && After(available, ops[..n]).available == Tracked(available, ops, n)
    ensures var s, s', d := After(available, ops[..n]), After(available, ops[..n + 1]), Delivered(available, ops, n);
            && s'.available == Tracked(available, ops, n + 1)
            && (s'.writeEnabled <==> ops[n].Write? || (s.writeEnabled && !d.outEvent))
            && (s'.readEnabled <==> Rearms(available, ops, n) || (s.readEnabled && !Suppresses(available, ops, n)))
            && (s'.closeEnabled <==> s.closeEnabled && !d.closeEvent)
  {
    AfterOne(available, ops, n);
  }

  /** Each flag is up exactly when the history says the event is due. */
  lemma {:induction false} FlagsAreHistory(available: int, ops: seq<Operation>, n: nat)
    requires n <= |ops|
    ensures var s := After(available, ops[..n]);
            && s.available == Tracked(available, ops, n)
            && (s.writeEnabled <==> OutDue(available, ops, n))
            && (s.readEnabled <==> InDue(available, ops, n))
            && (s.closeEnabled <==> CloseDue(available, ops, n))
    decreases n
  {
    if n > 0 {
      FlagsAreHistory(available, ops, n - 1);
      OutStep(available, ops, n - 1);
      InStep(available, ops, n - 1);
      CloseStep(available, ops, n - 1);
      FlagStep(available, ops, n - 1);
    }
  }

  lemma CloseStep(available: int, ops: seq<Operation>, n: nat)
    requires n < |ops|
    ensures CloseDue(available, ops, n + 1) <==> CloseDue(available, ops, n) && !Delivered(available, ops, n).closeEvent
  {
  }

  lemma AfterOne(available: int, ops: seq<Operation>, n: nat)
    requires n < |ops|
    ensures After(available, ops[..n + 1]) == Step(After(available, ops[..n]), ops[n])
  {
    assert ops[..n + 1][..n] == ops[..n];
  }

  /** A toggle lets through exactly the bits that are up and due, and all the others. */
  lemma DeliveredIff(available: int, ops: seq<Operation>, i: nat)
    requires i < |ops| && ops[i].Toggle?
    ensures var d, mask := Delivered(available, ops, i), ops[i].mask;
            && (d.outEvent <==> mask.outEvent && OutDue(available, ops, i))
            && (d.inEvent <==> mask.inEvent && InDue(available, ops, i))
            && (d.closeEvent <==> mask.closeEvent && CloseDue(available, ops, i))
            && d.rest == mask.rest
  {
    FlagsAreHistory(available, ops, i);
  }

  /** Between two out-events there is a write. */
  lemma WriteBetween(available: int, ops: seq<Operation>, i: nat, j: nat)
    requires i < j < |ops| && Delivered(available, ops, i).outEvent && Delivered(available, ops, j).outEvent
    ensures exists k :: i < k < j && ops[k].Write?
  {
    DeliveredIff(available, ops, j);
  }

  /** A close is let through once at most. */
  lemma CloseOnce(available: int, ops: seq<Operation>, i: nat, j: nat)
    requires i < |ops| && j < |ops| && Delivered(available, ops, i).closeEvent && Delivered(available, ops, j).closeEvent
    ensures i == j
  {
    DeliveredIff(available, ops, i);
    DeliveredIff(available, ops, j);
  }

  /** After an in-event with something to read, or with a close, the next one waits for an accept or a read to the end. */
  lemma RearmedBetween(available: int, ops: seq<Operation>, i: nat, j: nat)
    requires i < j < |ops| && Suppresses(available, ops, i) && Delivered(available, ops, j).inEvent
    ensures exists k :: i < k < j && Rearms(available, ops, k)
  {
    DeliveredIff(available, ops, j);
  }

  // ---------- Events come through ----------

  /** The first packet comes through whole. */
  lemma FirstToggle(available: int, ops: seq<Operation>, i: nat)
    requires i < |ops| && ops[i].Toggle? && forall k :: 0 <= k < i ==> !ops[k].Toggle?
    ensures Delivered(available, ops, i) == ops[i].mask
  {
    DeliveredIff(available, ops, i);
  }

  /** The first out-event after a write comes through. */
  lemma OutAfterWrite(available: int, ops: seq<Operation>, i: nat, j: nat)
    requires i < j < |ops| && ops[i] == Write && ops[j].Toggle? && ops[j].mask.outEvent
    requires forall k :: i < k < j ==> !(ops[k].Toggle? && ops[k].mask.outEvent)
    ensures Delivered(available, ops, j).outEvent
  {
    DeliveredIff(available, ops, j);
    forall k | 0 <= k < j && Delivered(available, ops, k).outEvent
      ensures k < i
    {
      DeliveredIff(available, ops, k);
    }
  }

  /** So does the first in-event after an accept, after a read that failed, and after one that took all there was. */
  lemma InAfterDrain(available: int, ops: seq<Operation>, i: nat, j: nat)
    requires i < j < |ops| && ops[j].Toggle? && ops[j].mask.inEvent
    requires || ops[i] == Accept
             || (ops[i].Read? && ops[i].count < 0)
             || (ops[i].Read? && i > 0 && ops[i - 1].Available? && 0 <= ops[i - 1].bytes <= ops[i].count)
    requires forall k :: i < k < j ==> !(ops[k].Toggle? && ops[k].mask.inEvent)
    ensures Delivered(available, ops, j).inEvent
  {
    DeliveredIff(available, ops, j);
    assert Rearms(available, ops, i);
    forall k | 0 <= k < j && Suppresses(available, ops, k)
      ensures k < i
    {
      DeliveredIff(available, ops, k);
    }
  }

  /** After an in-event with bytes to read or with a close, none comes through until something is read or accepted. */
  lemma InHeldBack(available: int, ops: seq<Operation>, i: nat, j: nat)
    requires i < j < |ops| && ops[i].Toggle? && Delivered(available, ops, i).inEvent
    requires ops[i].bytes != 0 || ops[i].mask.closeEvent
    requires forall k :: i < k < j ==> !ops[k].Accept? && !ops[k].Read?
    ensures !Delivered(available, ops, j).inEvent
  {
    if Delivered(available, ops, j).inEvent {
      RearmedBetween(available, ops, i, j);
    }
  }

  /** One without either holds nothing back: the next packet's in-event comes through too. */
  lemma EmptyInRepeats(available: int, ops: seq<Operation>, i: nat)
    requires i + 1 < |ops| && ops[i].Toggle? && Delivered(available, ops, i).inEvent
    requires ops[i].bytes == 0 && !ops[i].mask.closeEvent && ops[i + 1].Toggle? && ops[i + 1].mask.inEvent
    ensures Delivered(available, ops, i + 1).inEvent
  {
    DeliveredIff(available, ops, i);
    DeliveredIff(available, ops, i + 1);
    InStep(available, ops, i);
  }

  lemma DeliveredLast(available: int, ops: seq<Operation>, mask: Mask, bytes: int)
    ensures Delivered(available, ops + [Toggle(mask, bytes)], |ops|) == Toggled(After(available, ops), mask, bytes).0
  {
    assert (ops + [Toggle(mask, bytes)])[..|ops|] == ops;
  }

  // ---------- The handle ----------

  class IOHandle {
    var writeEventsEnabled: bool
    var readEventsEnabled: bool
    var closeEventsEnabled: bool
    var availableBytes: int
    const initial: int
    ghost var history: seq<Operation>

    ghost function Now(): State
      reads this
    {
      State(writeEventsEnabled, readEventsEnabled, closeEventsEnabled, availableBytes)
    }

    ghost predicate Valid()
      reads this
    {
      Now() == After(initial, history)
    }

    ghost method Record(op: Operation)
      requires Now() == Step(After(initial, history), op)
      modifies `history
      ensures Valid() && history == old(history) + [op]
    {
      AfterOne(initial, history + [op], |history|);
      assert (history + [op])[..|history|] == history && (history + [op])[..|history| + 1] == history + [op];
      history := history + [op];
    }

    constructor (available: int)
      ensures Valid() && history == [] && initial == available
    {
      writeEventsEnabled, readEventsEnabled, closeEventsEnabled := true, true, true;
      availableBytes, initial, history := available, available, [];
    }

    method ToggleEvents(mask: Mask, bytes: int) returns (r: Mask)
      requires Valid()
      modifies this
      ensures Valid() && history == old(history) + [Toggle(mask, bytes)]
      ensures r == Delivered(initial, history, |history| - 1)
    {
      r := mask;
      if !writeEventsEnabled {
        r := r.(outEvent := false);
      }
      if r.outEvent {
        writeEventsEnabled := false;
      }
      if !readEventsEnabled {
        r := r.(inEvent := false);
      }
      if r.inEvent {
        if bytes != 0 {
          readEventsEnabled := false;
        }
        if r.closeEvent {
          readEventsEnabled := false;
        }
      }
      if !closeEventsEnabled {
        r := r.(closeEvent := false);
      }
      if r.closeEvent {
        closeEventsEnabled := false;
      }
      assert (r, Now()) == Toggled(old(Now()), mask, bytes);
      DeliveredLast(initial, history, mask, bytes);
      Record(Toggle(mask, bytes));
    }

    /** `count` is what the system call returned. */
    method ReadBytes(count: int)
      requires Valid()
      modifies this
      ensures Valid() && history == old(history) + [Read(count)]
      ensures availableBytes == if count <= 0 then old(availableBytes)
                                else if old(availableBytes) < count then 0 else old(availableBytes) - count
      ensures readEventsEnabled <==> old(readEventsEnabled) || count < 0 || availableBytes == 0
      ensures unchanged(`writeEventsEnabled) && unchanged(`closeEventsEnabled)
    {
      if count > 0 {
        availableBytes := availableBytes - (if availableBytes >= count then count else availableBytes);
      }
      if availableBytes == 0 || count < 0 {
        readEventsEnabled := true;
      }
      Record(Read(count));
    }

    method WriteBytes()
      requires Valid()
      modifies this
      ensures Valid() && history == old(history) + [Write]
      ensures writeEventsEnabled && unchanged(`readEventsEnabled) && unchanged(`closeEventsEnabled) && unchanged(`availableBytes)
    {
      writeEventsEnabled := true;
      Record(Write);
    }

    method AcceptSocket()
      requires Valid()
      modifies this
      ensures Valid() && history == old(history) + [Accept]
      ensures readEventsEnabled && unchanged(`writeEventsEnabled) && unchanged(`closeEventsEnabled) && unchanged(`availableBytes)
    {
      readEventsEnabled := true;
      Record(Accept);
    }

    method AvailableBytes(bytes: int) returns (available: int)
      requires Valid()
      modifies this
      ensures Valid() && history == old(history) + [Available(bytes)]
      ensures available == availableBytes == Tracked(initial, history, |history|)
      ensures available == if bytes < 0 then 1 else bytes
      ensures unchanged(`writeEventsEnabled) && unchanged(`readEventsEnabled) && unchanged(`closeEventsEnabled)
    {
      available := if bytes < 0 then 1 else bytes;
      availableBytes := available;
      Record(Available(bytes));
    }
  }
}
