/** The function control protocol (sound/firewire/fcp.c, clause 9 of IEC
    61883-1): matching responses to commands, and one transaction between the
    response handler, bus resets and the waiting caller. */
module Fcp {
  type Byte = n: nat | n < 256

  const ERROR_RETRIES := 3
  const EIO := -5

  // ---------------------------------------------------------------------
  // The response mask
  // ---------------------------------------------------------------------

  function Shift(mask: nat, i: nat): nat { if i == 0 then mask else Shift(mask, i - 1) / 2 }

  predicate Bit(mask: nat, i: nat) { Shift(mask, i) % 2 == 1 }

  lemma {:induction false} ShiftAdd(mask: nat, i: nat, j: nat)
    ensures Shift(Shift(mask, i), j) == Shift(mask, i + j)
  {
    if j > 0 {
      ShiftAdd(mask, i, j - 1);
    }
  }

  lemma {:induction false} SomeBit(mask: nat) returns (i: nat)
    requires mask > 0
    ensures Bit(mask, i)
  {
    if mask % 2 == 1 {
      i := 0;
    } else {
      var j := SomeBit(mask / 2);
      ShiftAdd(mask, 1, j);
      assert Shift(mask, 1) == mask / 2;
      i := j + 1;
    }
  }

  lemma {:induction false} NoBits(i: nat)
    ensures !Bit(0, i) && Shift(0, i) == 0
  {
    if i > 0 {
      NoBits(i - 1);
    }
  }

  /** The bits of a mask are those of its binary representation. */
  lemma BitIs(mask: nat, i: nat)
    ensures Bit(mask, 0) <==> mask % 2 == 1
    ensures Bit(mask, i + 1) <==> Bit(mask / 2, i)
  {
    ShiftAdd(mask, 1, i);
    assert Shift(mask, 1) == mask / 2;
  }

  /** Every byte that the mask selects is there and equal. */
  ghost predicate Matches(mask: nat, buffer: seq<Byte>, response: seq<Byte>) {
    forall i: nat :: Bit(mask, i) ==> i < |response| && i < |buffer| && response[i] == buffer[i]
  }

  /** The caller has set every byte that the mask selects. */
  ghost predicate Selects(mask: nat, buffer: seq<Byte>) { forall i: nat :: Bit(mask, i) ==> i < |buffer| }

  /** is_matching_response. */
  method IsMatchingResponse(mask: nat, buffer: seq<Byte>, response: seq<Byte>) returns (matching: bool)
    requires |response| >= 1 && Selects(mask, buffer)
    ensures matching <==> Matches(mask, buffer, response)
  {
    var i, left, rest := 0, |response|, mask;
    while true
      invariant left >= 1 && i + left == |response| && rest == Shift(mask, i)
      invariant forall j: nat :: j < i && Bit(mask, j) ==> j < |buffer| && response[j] == buffer[j]
      decreases left
    {
      assert rest % 2 == 1 <==> Bit(mask, i);
      if rest % 2 == 1 && response[i] != buffer[i] {
        return false;
      }
      rest := rest / 2;
      if rest == 0 {
        forall j: nat | Bit(mask, j) ensures j <= i {
          if j > i {
            ShiftAdd(mask, i + 1, j - i - 1);
            NoBits(j - i - 1);
          }
        }
        return true;
      }
      left := left - 1;
      if left == 0 {
        var j := SomeBit(rest);
        ShiftAdd(mask, i + 1, j);
        assert Bit(mask, i + 1 + j);
        return false;
      }
      i := i + 1;
    }
  }

  // ---------------------------------------------------------------------
  // A transaction
  // ---------------------------------------------------------------------

  datatype State = Pending | BusReset | Complete | Deferred

  /** Where the caller stands in fcp_avc_transaction: it looks at the state
      without the lock, so that every look and every write is a step of its own. */
  datatype Waiter = Send | Wait | LookForDeferred | WritePending | LookForComplete | LookForReset | Done(result: int)

  /** `size` is response_size. */
  datatype AnyTransaction = Transaction(state: State, buffer: seq<Byte>, size: nat, mask: nat, deferrable: bool,
                                        waiter: Waiter, tries: nat)

  ghost predicate IsTransaction(t: AnyTransaction) { t.size <= |t.buffer| && Selects(t.mask, t.buffer) }

  ghost predicate IsStart(t: AnyTransaction) {
    IsTransaction(t) && t.state.Pending? && t.waiter.Send? && t.tries == 0
  }

  /** An AV/C response frame. */
  predicate IsResponseFrame(data: seq<Byte>) { |data| >= 1 && data[0] < 0x10 }

  const INTERIM := 0x0f

  /** What fcp_response copies. */
  function Fill(buffer: seq<Byte>, size: nat, data: seq<Byte>): (r: seq<Byte>)
    requires size <= |buffer| && size <= |data|
    ensures |r| == |buffer|
  {
    data[..size] + buffer[size..]
  }

  function Smaller(a: nat, b: nat): nat { if a < b then a else b }

  /** fcp_response on a frame from the transaction's device. */
  ghost function Respond(t: AnyTransaction, data: seq<Byte>): AnyTransaction
    requires t.size <= |t.buffer|
  {
    if !IsResponseFrame(data) || !t.state.Pending? || !Matches(t.mask, t.buffer, data) then t
    else if t.deferrable && data[0] == INTERIM then t.(state := Deferred)
    else
      var n := Smaller(|data|, t.size);
      t.(state := Complete, size := n, buffer := Fill(t.buffer, n, data))
  }

  /** fcp_bus_reset. */
  function Reset(t: AnyTransaction): AnyTransaction {
    if t.state.Pending? || t.state.Deferred? then t.(state := BusReset) else t
  }

  /** One step of the caller; `sent` is the result of sending the command, and
      `timeout` ends the wait. */
  function Proceed(t: AnyTransaction, sent: int, timeout: bool): AnyTransaction {
    match t.waiter
    case Send => t.(waiter := if sent < 0 then Done(sent) else Wait)
    case Wait => if timeout || !t.state.Pending? then t.(waiter := LookForDeferred) else t
    case LookForDeferred => t.(waiter := if t.state.Deferred? then WritePending else LookForComplete)
    case WritePending => t.(state := Pending, waiter := Wait)
    case LookForComplete => t.(waiter := if t.state.Complete? then Done(t.size) else LookForReset)
    case LookForReset =>
      if t.state.BusReset? then t.(waiter := Send)
      else if t.tries + 1 >= ERROR_RETRIES then t.(tries := t.tries + 1, waiter := Done(EIO))
      else t.(tries := t.tries + 1, waiter := Send)
    case Done(_) => t
  }

  /** Where a device is to be found on a bus, until the next reset. */
  datatype Address = Address(card: nat, generation: int, node: nat)

  class FcpTransaction {
    const unit: nat
    var device: Address
    const responseMatchBytes: nat
    const deferrable: bool
    var state: State
    var responseBuffer: seq<Byte>
    var responseSize: nat
    var waiter: Waiter
    var tries: nat

    ghost function View(): AnyTransaction
      reads this
    {
      Transaction(state, responseBuffer, responseSize, responseMatchBytes, deferrable, waiter, tries)
    }

    /** fcp_avc_transaction up to its loop. The field deferrable is only set for
        control and notify commands; otherwise it is whatever `leftover` was. */
    constructor (unit: nat, device: Address, command: seq<Byte>, response: seq<Byte>, responseSize: nat,
                 responseMatchBytes: nat, leftover: bool)
      requires |command| >= 1 && responseSize <= |response| && Selects(responseMatchBytes, response)
      ensures IsStart(View()) && responseBuffer == response && this.responseSize == responseSize
      ensures this.unit == unit && this.device == device
      ensures this.responseMatchBytes == responseMatchBytes && (command[0] in {0x00, 0x03} ==> deferrable)
    {
      this.unit, this.device := unit, device;
      this.responseMatchBytes, this.responseSize, responseBuffer := responseMatchBytes, responseSize, response;
      deferrable := command[0] == 0x00 || command[0] == 0x03 || leftover;
      state, waiter, tries := Pending, Send, 0;
    }

    /** One turn of the loop in fcp_response. */
    method HandleResponse(data: seq<Byte>)
      requires IsTransaction(View()) && |data| >= 1 && data[0] < 0x10
      modifies this
      ensures device == old(device)
      ensures View() == Respond(old(View()), data)
    {
      if !state.Pending? {
        return;
      }
      var matching := IsMatchingResponse(responseMatchBytes, responseBuffer, data);
      if matching {
        if deferrable && data[0] == INTERIM {
          state := Deferred;
        } else {
          state := Complete;
          responseSize := if |data| < responseSize then |data| else responseSize;
          responseBuffer := data[..responseSize] + responseBuffer[responseSize..];
        }
      }
    }

    method HandleBusReset()
      modifies this
      ensures device == old(device)
      ensures View() == Reset(old(View()))
    {
      if state.Pending? || state.Deferred? {
        state := BusReset;
      }
    }

    /** One step of the caller. */
    method Step(sent: int, timeout: bool)
      modifies this
      ensures device == old(device)
      ensures View() == Proceed(old(View()), sent, timeout)
    {
      match waiter
      case Send => waiter := if sent < 0 then Done(sent) else Wait;
      case Wait =>
        if timeout || !state.Pending? {
          waiter := LookForDeferred;
        }
      case LookForDeferred => waiter := if state.Deferred? then WritePending else LookForComplete;
      case WritePending =>
        state := Pending;
        waiter := Wait;
      case LookForComplete => waiter := if state.Complete? then Done(responseSize) else LookForReset;
      case LookForReset =>
        waiter := Send;
        if !state.BusReset? {
          tries := tries + 1;
          if tries >= ERROR_RETRIES {
            waiter := Done(EIO);
          }
        }
      case Done(_) =>
    }
  }

  /** fcp_response: every pending transaction with the device that has sent the
      frame takes it, if it matches. */
  method HandleAll(transactions: seq<FcpTransaction>, from: Address, data: seq<Byte>)
    requires forall i, j :: 0 <= i < j < |transactions| ==> transactions[i] != transactions[j]
    requires forall i :: 0 <= i < |transactions| ==> IsTransaction(transactions[i].View())
    modifies transactions
    ensures forall i :: 0 <= i < |transactions| ==> transactions[i].device == old(transactions[i].device)
    ensures forall i :: 0 <= i < |transactions| && transactions[i].device != from ==>
              transactions[i].View() == old(transactions[i].View())
    ensures forall i :: 0 <= i < |transactions| ==>
              old(transactions[i].responseSize <= |transactions[i].responseBuffer|)
    ensures forall i :: 0 <= i < |transactions| && transactions[i].device == from ==>
              transactions[i].View() == old(Respond(transactions[i].View(), data))
  {
    if |data| < 1 || data[0] / 0x10 != 0 {
      return;
    }
    var i := 0;
    while i < |transactions|
      invariant i <= |transactions|
      invariant forall j :: 0 <= j < |transactions| ==> transactions[j].device == old(transactions[j].device)
      invariant forall j :: 0 <= j < i && transactions[j].device == from ==>
                  transactions[j].View() == old(Respond(transactions[j].View(), data))
      invariant forall j :: 0 <= j < |transactions| && (i <= j || transactions[j].device != from) ==>
                  transactions[j].View() == old(transactions[j].View())
    {
      if transactions[i].device == from {
        transactions[i].HandleResponse(data);
      }
      i := i + 1;
    }
  }

  /** fcp_bus_reset: every transaction of the unit is marked. */
  method ResetAll(transactions: seq<FcpTransaction>, unit: nat)
    requires forall i, j :: 0 <= i < j < |transactions| ==> transactions[i] != transactions[j]
    modifies transactions
    ensures forall i :: 0 <= i < |transactions| ==>
              transactions[i].View() == if transactions[i].unit == unit then Reset(old(transactions[i].View()))
                                        else old(transactions[i].View())
  {
    var i := 0;
    while i < |transactions|
      invariant i <= |transactions|
      invariant forall j :: 0 <= j < |transactions| ==>
                  transactions[j].View() == if j < i && transactions[j].unit == unit
                                            then Reset(old(transactions[j].View()))
                                            else old(transactions[j].View())
    {
      if transactions[i].unit == unit {
        transactions[i].HandleBusReset();
      }
      i := i + 1;
    }
  }

  // ---------------------------------------------------------------------
  // All interleavings
  // ---------------------------------------------------------------------

  datatype Event = Response(data: seq<Byte>) | ResetEvent | Waiting(sent: int, timeout: bool)

  type Transaction = t: AnyTransaction | t.size <= |t.buffer| witness Transaction(Pending, [], 0, 0, false, Send, 0)

  ghost function Step(t: Transaction, e: Event): Transaction {
    match e
    case Response(data) => Respond(t, data)
    case ResetEvent => Reset(t)
    case Waiting(sent, timeout) => Proceed(t, sent, timeout)
  }

  ghost function Run(t: Transaction, events: seq<Event>): Transaction {
    if events == [] then t else Step(Run(t, events[..|events| - 1]), events[|events| - 1])
  }

  /** A final response to the command: a frame of the AV/C command set, not an interim
      response if that is to be waited for, with the bytes that the caller has set. */
  ghost predicate Answers(start: Transaction, data: seq<Byte>) {
    && |data| >= 1 && data[0] < 0x10 && (start.deferrable ==> data[0] != 0x0f)
    && forall i: nat :: Bit(start.mask, i) ==> i < |start.buffer| && i < |data| && data[i] == start.buffer[i]
  }

  lemma AnswersIff(start: Transaction, data: seq<Byte>)
    ensures Answers(start, data) <==>
            && IsResponseFrame(data) && Matches(start.mask, start.buffer, data)
            && !(start.deferrable && data[0] == INTERIM)
  {
  }

  /** The frame k of a run is what the transaction has been given. */
  ghost predicate DeliveredBy(start: Transaction, t: Transaction, events: seq<Event>, k: int) {
    && 0 <= k < |events| && events[k].Response?
    && var data := events[k].data;
    && Answers(start, data)
    && t.size == (if |data| < start.size then |data| else start.size)
    && t.buffer == data[..t.size] + start.buffer[t.size..]
  }

  /** What holds after any run; `start` is the transaction before it. */
  ghost predicate Safe(start: Transaction, t: Transaction, events: seq<Event>) {
    && t.mask == start.mask && t.deferrable == start.deferrable
    && (!t.state.Complete? ==> t.buffer == start.buffer && t.size == start.size)
    && (t.state.Complete? ==> exists k :: DeliveredBy(start, t, events, k))
    && (t.waiter.WritePending? ==> t.state.Deferred? || t.state.BusReset?)
    && (t.waiter.Done? && t.waiter.result >= 0 ==> t.state.Complete? && t.waiter.result == t.size)
    && t.tries <= ERROR_RETRIES && (t.tries == ERROR_RETRIES ==> t.waiter == Done(EIO))
  }

  lemma CompleteStays(t: Transaction, e: Event)
    requires t.state.Complete? && !t.waiter.WritePending?
    ensures Step(t, e).state.Complete? && Step(t, e).buffer == t.buffer && Step(t, e).size == t.size
  {
  }

  lemma StepKeepsSafe(start: Transaction, t: Transaction, events: seq<Event>, e: Event)
    requires Safe(start, t, events)
    ensures Safe(start, Step(t, e), events + [e])
    ensures t.state.Complete? ==>
              Step(t, e).state.Complete? && Step(t, e).buffer == t.buffer && Step(t, e).size == t.size
  {
    if e.Response? {
      AnswersIff(start, e.data);
    }
    hide Matches, Answers, IsResponseFrame, Bit;
    if t.state.Complete? {
      CompleteStays(t, e);
    }
    var after := Step(t, e);
    if t.state.Complete? {
      var k :| DeliveredBy(start, t, events, k);
      assert DeliveredBy(start, after, events + [e], k);
    } else if after.state.Complete? {
      assert DeliveredBy(start, after, events + [e], |events|);
    }
  }

  /** In every interleaving a result that is not an error is the size of a frame
      that was received, matched the command and was not interim, and that frame
      is what the caller finds in the buffer. */
  lemma {:induction false} RunIsSafe(start: Transaction, events: seq<Event>)
    requires IsStart(start)
    ensures Safe(start, Run(start, events), events)
  {
    if events != [] {
      var n := |events| - 1;
      RunIsSafe(start, events[..n]);
      StepKeepsSafe(start, Run(start, events[..n]), events[..n], events[n]);
      assert events == events[..n] + [events[n]];
    }
  }

  /** Completion is terminal, and the response is not touched again. */
  lemma {:induction false} CompleteIsTerminal(start: Transaction, before: seq<Event>, events: seq<Event>)
    requires IsStart(start) && Run(start, before).state.Complete?
    ensures var t := Run(start, before + events);
            t.state.Complete? && t.buffer == Run(start, before).buffer && t.size == Run(start, before).size
    decreases |events|
  {
    if events == [] {
      assert before + events == before;
    } else {
      var n := |events| - 1;
      CompleteIsTerminal(start, before, events[..n]);
      RunIsSafe(start, before + events[..n]);
      assert (before + events)[..|before + events| - 1] == before + events[..n];
      StepKeepsSafe(start, Run(start, before + events[..n]), before + events[..n], events[n]);
    }
  }

  // ---------------------------------------------------------------------
  // Bus resets
  // ---------------------------------------------------------------------

  /** A bus reset that the caller will see. */
  predicate Marked(t: AnyTransaction) { t.state.BusReset? && !t.waiter.WritePending? }

  /** The caller has returned a response. */
  predicate Succeeded(t: AnyTransaction) { t.waiter.Done? && t.waiter.result >= 0 }

  /** Nothing takes a seen bus reset back: the command is sent again and again,
      but no response is taken any more, and the caller can only return the
      error of a failed transmission. */
  lemma {:induction false} ResetIsFinal(t: Transaction, events: seq<Event>)
    requires Marked(t) && !Succeeded(t)
    ensures var after := Run(t, events);
            && Marked(after) && !Succeeded(after) && after.buffer == t.buffer && after.tries == t.tries
            && (after.waiter.Done? ==> after.waiter == t.waiter || SendFailed(events, after.waiter.result))
  {
    if events != [] {
      var n := |events| - 1;
      ResetIsFinal(t, events[..n]);
      var before := Run(t, events[..n]);
      if before.waiter.Done? && SendFailed(events[..n], before.waiter.result) {
        var k :| FailedAt(events[..n], k, before.waiter.result);
        assert FailedAt(events, k, before.waiter.result);
      } else if before.waiter.Send? && events[n].Waiting? {
        assert events[n].sent < 0 ==> FailedAt(events, n, events[n].sent);
      }
    }
  }

  /** One of the attempts to send the command has failed with this error. */
  ghost predicate SendFailed(events: seq<Event>, error: int) { exists k :: FailedAt(events, k, error) }

  predicate FailedAt(events: seq<Event>, k: int, error: int) {
    0 <= k < |events| && events[k].Waiting? && events[k].sent == error < 0
  }

  lemma {:induction false} RunConcat(t: Transaction, a: seq<Event>, b: seq<Event>)
    ensures Run(t, a + b) == Run(Run(t, a), b)
    decreases |b|
  {
    if b == [] {
      assert a + b == a;
    } else {
      var n := |b| - 1;
      RunConcat(t, a, b[..n]);
      assert (a + b)[..|a + b| - 1] == a + b[..n];
    }
  }

  /** A bus reset that has met a waiting transaction is ever forgotten exactly when
      it fell between the caller's look at a deferred transaction and its write. */
  lemma ResetLostIff(start: Transaction, before: seq<Event>)
    requires IsStart(start)
    requires Run(start, before).state.Pending? || Run(start, before).state.Deferred?
    ensures (exists after :: !Run(start, before + [ResetEvent] + after).state.BusReset?) <==>
            Run(start, before).waiter.WritePending?
  {
    var t := Run(start, before);
    var reset := Run(start, before + [ResetEvent]);
    RunIsSafe(start, before);
    RunConcat(start, before, [ResetEvent]);
    assert [ResetEvent][..0] == [] && Run(t, [ResetEvent]) == Reset(t);
    if t.waiter.WritePending? {
      var step := [Waiting(0, false)];
      RunConcat(start, before + [ResetEvent], step);
      assert step[..0] == [] && Run(reset, step) == Step(reset, step[0]);
      assert !Run(start, before + [ResetEvent] + step).state.BusReset?;
    } else {
      forall after ensures Run(start, before + [ResetEvent] + after).state.BusReset? {
        ResetIsFinal(reset, after);
        RunConcat(start, before + [ResetEvent], after);
      }
    }
  }

  /** The caller undoes the reset, waits, and is answered. */
  function Recovery(data: seq<Byte>): seq<Event> {
    [Waiting(0, false), Response(data), Waiting(0, false), Waiting(0, false), Waiting(0, false)]
  }

  lemma RunFive(t: Transaction, a: Event, b: Event, c: Event, d: Event, e: Event)
    ensures Run(t, [a, b, c, d, e]) == Step(Step(Step(Step(Step(t, a), b), c), d), e)
  {
    assert [a, b, c, d, e][..4] == [a, b, c, d] && [a, b, c, d][..3] == [a, b, c];
    assert [a, b, c][..2] == [a, b] && [a, b][..1] == [a] && [a][..0] == [];
    assert Run(t, [a]) == Step(Run(t, []), a);
    assert Run(t, [a, b]) == Step(Run(t, [a]), b);
    assert Run(t, [a, b, c]) == Step(Run(t, [a, b]), c);
    assert Run(t, [a, b, c, d]) == Step(Run(t, [a, b, c]), d);
  }

  lemma RecoverySucceeds(t: Transaction, data: seq<Byte>)
    requires t.state.BusReset? && t.waiter.WritePending? && Answers(t, data)
    ensures Succeeded(Run(t, Recovery(data)))
  {
    AnswersIff(t, data);
    hide Run, Matches, Answers;
    RunFive(t, Waiting(0, false), Response(data), Waiting(0, false), Waiting(0, false), Waiting(0, false));
  }

  /** When a successful result is still to be had after a bus reset has met a
      waiting transaction: if and only if the reset fell between the caller's look
      at a deferred transaction and its write, which forgets the reset, and there
      is a response that answers the command at all. */
  lemma SuccessAfterResetIff(start: Transaction, before: seq<Event>)
    requires IsStart(start)
    requires Run(start, before).state.Pending? || Run(start, before).state.Deferred?
    ensures (exists after :: Succeeded(Run(start, before + [ResetEvent] + after))) <==>
            Run(start, before).waiter.WritePending? && exists data :: Answers(start, data)
  {
    var t := Run(start, before);
    var reset := Run(start, before + [ResetEvent]);
    RunIsSafe(start, before);
    RunConcat(start, before, [ResetEvent]);
    assert [ResetEvent][..0] == [] && Run(t, [ResetEvent]) == Reset(t);
    if t.waiter.WritePending? {
      if data :| Answers(start, data) {
        RecoverySucceeds(reset, data);
        RunConcat(start, before + [ResetEvent], Recovery(data));
      } else {
        forall after ensures !Succeeded(Run(start, before + [ResetEvent] + after)) {
          SuccessNeedsAnswer(start, before + [ResetEvent] + after);
        }
      }
    } else {
      forall after ensures !Succeeded(Run(start, before + [ResetEvent] + after)) {
        ResetIsFinal(reset, after);
        RunConcat(start, before + [ResetEvent], after);
      }
    }
  }

  lemma SuccessNeedsAnswer(start: Transaction, events: seq<Event>)
    requires IsStart(start) && forall data :: !Answers(start, data)
    ensures !Succeeded(Run(start, events))
  {
    RunIsSafe(start, events);
  }

  // ---------------------------------------------------------------------
  // Calls that fail
  // ---------------------------------------------------------------------

  /** What the caller does next, undisturbed. */
  function Ahead(n: nat): seq<Event> { seq(n, _ => Waiting(0, true)) }

  lemma AheadStep(t: Transaction, n: nat)
    requires n > 0
    ensures Run(t, Ahead(n)) == Run(Step(t, Waiting(0, true)), Ahead(n - 1))
  {
    var one := [Waiting(0, true)];
    assert Ahead(n) == one + Ahead(n - 1);
    RunConcat(t, one, Ahead(n - 1));
    assert one[..0] == [];
    assert Run(t, one) == Step(Run(t, []), one[0]);
  }

  lemma FiveSteps(t: Transaction)
    requires t.waiter.Send? && t.state.Pending?
    ensures var e := Run(t, Ahead(5));
            e == if t.tries + 1 >= 3 then t.(tries := t.tries + 1, waiter := Done(-5)) else t.(tries := t.tries + 1)
  {
    hide Run, Ahead, Step;
    var w, d, c, r := t.(waiter := Wait), t.(waiter := LookForDeferred), t.(waiter := LookForComplete),
                      t.(waiter := LookForReset);
    AheadStep(t, 5);
    AheadStep(w, 4);
    AheadStep(d, 3);
    AheadStep(c, 2);
    AheadStep(r, 1);
    StepsOfRound(t);
    AheadNothing(Step(r, Waiting(0, true)));
  }

  /** One round of the caller's loop, if nothing happens. */
  lemma StepsOfRound(t: Transaction)
    requires t.state.Pending?
    ensures Step(t.(waiter := Send), Waiting(0, true)) == t.(waiter := Wait)
    ensures Step(t.(waiter := Wait), Waiting(0, true)) == t.(waiter := LookForDeferred)
    ensures Step(t.(waiter := LookForDeferred), Waiting(0, true)) == t.(waiter := LookForComplete)
    ensures Step(t.(waiter := LookForComplete), Waiting(0, true)) == t.(waiter := LookForReset)
    ensures Step(t.(waiter := LookForReset), Waiting(0, true)) ==
            t.(tries := t.tries + 1, waiter := if t.tries + 1 >= 3 then Done(-5) else Send)
  {
  }

  lemma AheadNothing(t: Transaction)
    ensures Run(t, Ahead(0)) == t
  {
  }

  /** A command that nobody answers is sent three times, and then the call fails. */
  lemma UnansweredFails(start: Transaction)
    requires IsStart(start)
    ensures Run(start, Ahead(5)) == start.(tries := 1) && Run(start, Ahead(10)) == start.(tries := 2)
    ensures Run(start, Ahead(15)) == start.(tries := 3, waiter := Done(-5))
  {
    FiveSteps(start);
    FiveSteps(start.(tries := 1));
    FiveSteps(start.(tries := 2));
    AheadSplits(start, 5, 5);
    AheadSplits(start, 10, 5);
  }

  lemma AheadSplits(t: Transaction, a: nat, b: nat)
    ensures Run(t, Ahead(a + b)) == Run(Run(t, Ahead(a)), Ahead(b))
  {
    assert Ahead(a + b) == Ahead(a) + Ahead(b);
    RunConcat(t, Ahead(a), Ahead(b));
  }

  /** While it is marked, a transaction is back where it was after five steps: the
      command is sent again for ever. */
  lemma ResetSendsAgain(t: Transaction)
    requires Marked(t) && t.waiter.Send?
    ensures Run(t, Ahead(5)) == t
  {
    hide Run, Ahead, Step;
    var w, d, c, r := t.(waiter := Wait), t.(waiter := LookForDeferred), t.(waiter := LookForComplete),
                      t.(waiter := LookForReset);
    AheadStep(t, 5);
    AheadStep(w, 4);
    AheadStep(d, 3);
    AheadStep(c, 2);
    AheadStep(r, 1);
    MarkedSteps(t);
    AheadNothing(t);
  }

  lemma MarkedSteps(t: Transaction)
    requires t.state.BusReset? && t.waiter.Send?
    ensures Step(t, Waiting(0, true)) == t.(waiter := Wait)
    ensures Step(t.(waiter := Wait), Waiting(0, true)) == t.(waiter := LookForDeferred)
    ensures Step(t.(waiter := LookForDeferred), Waiting(0, true)) == t.(waiter := LookForComplete)
    ensures Step(t.(waiter := LookForComplete), Waiting(0, true)) == t.(waiter := LookForReset)
    ensures Step(t.(waiter := LookForReset), Waiting(0, true)) == t
  {
  }

  /** The caller waits as long as the transaction is pending, until the timeout. */
  lemma WaitsIff(t: Transaction, sent: int, timeout: bool)
    requires t.waiter.Wait?
    ensures Step(t, Waiting(sent, timeout)) == t <==> t.state.Pending? && !timeout
    ensures !t.state.Pending? || timeout ==> Step(t, Waiting(sent, timeout)) == t.(waiter := LookForDeferred)
  {
  }

  /** An interim response, once the caller has taken notice of it, leaves a transaction
      waiting as if nothing had come, with as many tries as before. */
  lemma InterimIsWaitedOut(t: Transaction, interim: seq<Byte>, sent: int, timeout: bool)
    requires t.state.Pending? && t.waiter.Wait? && t.deferrable
    requires |interim| >= 1 && interim[0] == 0x0f && Matches(t.mask, t.buffer, interim)
    ensures Run(t, [Response(interim)] + [Waiting(sent, timeout), Waiting(sent, timeout), Waiting(sent, timeout)]) == t
  {
    hide Matches;
    var w := Waiting(sent, timeout);
    var deferred := t.(state := Deferred);
    assert [Response(interim)][..0] == [] && Run(t, [Response(interim)]) == deferred;
    RunConcat(t, [Response(interim)], [w, w, w]);
    RunThree(deferred, w, w, w);
    hide Run;
  }

  lemma RunThree(t: Transaction, a: Event, b: Event, c: Event)
    ensures Run(t, [a, b, c]) == Step(Step(Step(t, a), b), c)
  {
    assert [a, b, c][..2] == [a, b] && [a, b][..1] == [a] && [a][..0] == [];
    assert Run(t, [a]) == Step(Run(t, []), a);
    assert Run(t, [a, b]) == Step(Run(t, [a]), b);
  }

  /** A command that cannot be sent ends the call at once with that error. */
  lemma SendFails(t: Transaction, sent: int, timeout: bool)
    requires t.waiter.Send? && sent < 0
    ensures Step(t, Waiting(sent, timeout)) == t.(waiter := Done(sent))
  {
  }

  // ---------------------------------------------------------------------
  // Lost answers
  // ---------------------------------------------------------------------

  /** No event brings an answer to the command. */
  ghost predicate NoAnswers(start: Transaction, events: seq<Event>) {
    forall i :: 0 <= i < |events| && events[i].Response? ==> !Answers(start, events[i].data)
  }

  /** The caller will not look for a response any more. */
  predicate HasLooked(t: AnyTransaction) { t.waiter.LookForReset? && t.tries + 1 >= ERROR_RETRIES }

  /** Without an answer a transaction is not completed. */
  lemma {:induction false} NothingCompletes(start: Transaction, t: Transaction, events: seq<Event>)
    requires t.mask == start.mask && t.buffer == start.buffer && t.deferrable == start.deferrable
    requires !t.state.Complete? && !Succeeded(t) && NoAnswers(start, events)
    ensures var after := Run(t, events);
            && after.mask == start.mask && after.buffer == start.buffer && after.deferrable == start.deferrable
            && !after.state.Complete? && !Succeeded(after)
  {
    if events != [] {
      var n := |events| - 1;
      NothingCompletes(start, t, events[..n]);
      assert events[n].Response? ==> !Answers(start, events[n].data);
    }
  }

  /** A caller that has looked returns an error, although the answer is there. */
  lemma {:induction false} TooLate(t: Transaction, events: seq<Event>)
    requires t.state.Complete? && HasLooked(t)
    ensures var after := Run(t, events);
            after.state.Complete? && (HasLooked(after) || after.waiter == Done(EIO))
  {
    if events != [] {
      TooLate(t, events[..|events| - 1]);
    }
  }

  /** How many steps a caller that finds a complete transaction has to go. */
  function StepsToGo(w: Waiter): nat {
    match w
    case LookForReset => 5
    case Send => 4
    case Wait => 3
    case LookForDeferred => 2
    case LookForComplete => 1
    case _ => 0
  }

  lemma {:induction false} CompleteIsFound(t: Transaction)
    requires t.state.Complete? && !t.waiter.WritePending? && !HasLooked(t) && (t.waiter.Done? ==> Succeeded(t))
    ensures Succeeded(Run(t, Ahead(StepsToGo(t.waiter))))
    decreases StepsToGo(t.waiter)
  {
    var n := StepsToGo(t.waiter);
    if n > 0 {
      AheadStep(t, n);
      CompleteIsFound(Step(t, Waiting(0, true)));
    }
  }

  /** When an answer to a transaction that is still waiting for one is lost, so that
      only another answer can make it succeed: if and only if the transaction is
      not pending as it comes, which is between an interim response and the
      caller's write and after a bus reset, or if the caller has looked for a
      response for the last time. */
  lemma AnswerLostIff(start: Transaction, before: seq<Event>, data: seq<Byte>)
    requires IsStart(start) && Answers(start, data)
    requires var t := Run(start, before); !t.state.Complete? && !t.waiter.Done?
    ensures var t := Run(start, before);
            (forall after :: NoAnswers(start, after) ==> !Succeeded(Run(start, before + [Response(data)] + after))) <==>
            !t.state.Pending? || HasLooked(t)
  {
    var t := Run(start, before);
    var answered := Step(t, Response(data));
    RunIsSafe(start, before);
    RunConcat(start, before, [Response(data)]);
    assert [Response(data)][..0] == [] && Run(t, [Response(data)]) == answered;
    if !t.state.Pending? || HasLooked(t) {
      forall after | NoAnswers(start, after) ensures !Succeeded(Run(start, before + [Response(data)] + after)) {
        RunConcat(start, before + [Response(data)], after);
        if t.state.Pending? {
          TooLate(answered, after);
        } else {
          NothingCompletes(start, answered, after);
        }
      }
    } else {
      var after := Ahead(StepsToGo(t.waiter));
      CompleteIsFound(answered);
      RunConcat(start, before + [Response(data)], after);
      assert NoAnswers(start, after) && Succeeded(Run(start, before + [Response(data)] + after));
    }
  }

  /** The caller's write that takes an interim response to its notice. */
  ghost predicate Writes(t: Transaction, e: Event) { e.Waiting? && t.waiter.WritePending? }

  /** Neither that nor a bus reset happens in a run. */
  ghost predicate IsQuiet(t: Transaction, events: seq<Event>)
    decreases |events|
  {
    events == [] ||
    var n := |events| - 1;
    events[n] != ResetEvent && !Writes(Run(t, events[..n]), events[n]) && IsQuiet(t, events[..n])
  }

  /** The transaction is deferred all the time. */
  ghost predicate StaysDeferred(t: Transaction, events: seq<Event>)
    decreases |events|
  {
    Run(t, events).state.Deferred? && (events == [] || StaysDeferred(t, events[..|events| - 1]))
  }

  /** The window behind an interim response stays open exactly until the caller
      writes or a bus is reset, however many steps and responses that takes. */
  lemma {:induction false} WindowIff(t: Transaction, events: seq<Event>)
    requires t.state.Deferred?
    ensures StaysDeferred(t, events) <==> IsQuiet(t, events)
    decreases |events|
  {
    if events != [] {
      WindowIff(t, events[..|events| - 1]);
    }
  }

  /** So an answer behind an interim response is lost, before the caller has taken
      that to its notice. */
  lemma AnswerInWindowIsLost(start: Transaction, before: seq<Event>, interim: seq<Byte>, between: seq<Event>,
                             data: seq<Byte>, after: seq<Event>)
    requires IsStart(start) && start.deferrable && Answers(start, data) && NoAnswers(start, after)
    requires Run(start, before).state.Pending? && !Run(start, before).waiter.Done?
    requires |interim| >= 1 && interim[0] == 0x0f && Matches(start.mask, start.buffer, interim)
    requires IsQuiet(Run(start, before + [Response(interim)]), between)
    requires !Run(start, before + [Response(interim)] + between).waiter.Done?
    ensures !Succeeded(Run(start, before + [Response(interim)] + between + [Response(data)] + after))
  {
    var deferred := Run(start, before + [Response(interim)]);
    RunIsSafe(start, before);
    RunConcat(start, before, [Response(interim)]);
    assert [Response(interim)][..0] == [] && deferred == Respond(Run(start, before), interim);
    WindowIff(deferred, between);
    RunConcat(start, before + [Response(interim)], between);
    AnswerLostIff(start, before + [Response(interim)] + between, data);
  }
}
