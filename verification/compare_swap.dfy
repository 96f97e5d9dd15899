/** The lock transactions of pcr_modify (sound/firewire/cmp.c), for a register of
    any kind: a compare-and-swap loop against a device that other controllers
    and bus resets also work on, over a bus that loses requests and answers. */
module CompareSwap {
  import opened IsoResources

  /** What becomes of one compare-swap request. The device compares with the
      register's value at that moment, which other controllers may have changed
      since the last request, and the answer gives that value; but the answer may
      be lost. A request is not carried out if its generation is no longer
      current, or if it does not arrive, or is refused for good. */
  datatype Response<R> = Answered(pcr: R) | AnswerLost(pcr: R) | StaleGeneration | NotArrived | Refused

  /** A try of a transaction that failed, but may succeed when repeated. */
  predicate MayRetry<R>(response: Response<R>) { response.AnswerLost? || response.NotArrived? }

  // ---------------------------------------------------------------------
  // One transaction
  // ---------------------------------------------------------------------

  /** Tries of a transaction in snd_fw_transaction. */
  const TRIES := 3

  datatype Reply<R> = Returned(err: int) | Old(pcr: R, at: nat)

  /** snd_fw_transaction in a fixed generation, from response k on. The device
      stops answering when the responses end. */
  function Transact<R>(responses: seq<Response<R>>, k: nat, tries: nat): (r: Reply<R>)
    requires k <= |responses| && tries < TRIES
    ensures r.Returned? ==> r.err == EIO || r.err == EAGAIN
    ensures r.Old? ==> k <= r.at < |responses| && responses[r.at] == Answered(r.pcr)
    decreases |responses| - k
  {
    if k == |responses| then Returned(EIO)
    else match responses[k]
      case Answered(v) => Old(v, k)
      case StaleGeneration => Returned(EAGAIN)
      case Refused => Returned(EIO)
      case _ => if tries + 1 >= TRIES then Returned(EIO) else Transact(responses, k + 1, tries + 1)
  }

  /** The requests of that transaction that are carried out without an answer. */
  function LostSwaps<R(==)>(expected: R, responses: seq<Response<R>>, k: nat, tries: nat): set<nat>
    requires k <= |responses| && tries < TRIES
    decreases |responses| - k
  {
    if k == |responses| || !MayRetry(responses[k]) then {}
    else
      (if responses[k] == AnswerLost(expected) then {k} else {}) +
      if tries + 1 >= TRIES then {} else LostSwaps(expected, responses, k + 1, tries + 1)
  }

  /** snd_fw_transaction. */
  method LockTransaction<R(==)>(responses: seq<Response<R>>, k: nat) returns (reply: Reply<R>)
    requires k <= |responses|
    ensures reply == Transact(responses, k, 0)
  {
    var i, tries := k, 0;
    while true
      invariant k <= i <= |responses| && tries < TRIES
      invariant Transact(responses, i, tries) == Transact(responses, k, 0)
      decreases |responses| - i
    {
      if i == |responses| {
        return Returned(EIO);
      }
      if responses[i].Answered? {
        return Old(responses[i].pcr, i);
      }
      if responses[i].StaleGeneration? {
        return Returned(EAGAIN);
      }
      tries := tries + 1;
      if responses[i].Refused? || tries >= TRIES {
        return Returned(EIO);
      }
      i := i + 1;
    }
  }

  // ---------------------------------------------------------------------
  // The loop
  // ---------------------------------------------------------------------

  datatype Write<R> = NoWrite | Write(at: nat, was: R, now: R)

  /** Result code, the new last_pcr_value, the change of the register that the
      call knows of, and the requests that have changed it without an answer. */
  datatype Outcome<R> = Outcome(err: int, last: R, write: Write<R>, lost: set<nat>)

  /** The loop of pcr_modify, with `expected` in buffer[0], at response k. */
  function PcrModify<R(==)>(transform: R -> R, check: R -> int, last: R, expected: R, succeedOnReset: bool,
                            responses: seq<Response<R>>, k: nat): Outcome<R>
    requires k <= |responses|
    decreases |responses| - k
  {
    var lost := LostSwaps(expected, responses, k, 0);
    match Transact(responses, k, 0)
    case Returned(err) => Outcome(if err == EAGAIN && succeedOnReset then 0 else err, last, NoWrite, lost)
    case Old(v, at) =>
      if v == expected then Outcome(0, transform(v), Write(at, v, transform(v)), lost)
      else if check(v) < 0 then Outcome(check(v), last, NoWrite, lost)
      else
        var o := PcrModify(transform, check, last, v, succeedOnReset, responses, at + 1);
        o.(lost := lost + o.lost)
  }

  /** One round of the loop whose first request is answered. */
  lemma AnsweredRound<R>(transform: R -> R, check: R -> int, last: R, expected: R, succeedOnReset: bool,
                         responses: seq<Response<R>>, k: nat, v: R)
    requires k < |responses| && responses[k] == Answered(v)
    ensures var o := PcrModify(transform, check, last, expected, succeedOnReset, responses, k);
            if v == expected then o == Outcome(0, transform(v), Write(k, v, transform(v)), {})
            else if check(v) < 0 then o == Outcome(check(v), last, NoWrite, {})
            else o == PcrModify(transform, check, last, v, succeedOnReset, responses, k + 1)
  {
  }

  lemma {:induction false} LostSwapsLost<R>(expected: R, responses: seq<Response<R>>, k: nat, tries: nat)
    requires k <= |responses| && tries < TRIES
    ensures forall i :: i in LostSwaps(expected, responses, k, tries) ==>
              && k <= i < |responses| && responses[i] == AnswerLost(expected)
              && var reply := Transact(responses, k, tries); (reply.Old? ==> i < reply.at)
    decreases |responses| - k
  {
    if k < |responses| && MayRetry(responses[k]) && tries + 1 < TRIES {
      LostSwapsLost(expected, responses, k + 1, tries + 1);
    }
  }

  lemma {:induction false} TransactStale<R>(responses: seq<Response<R>>, k: nat, tries: nat)
    requires k <= |responses| && tries < TRIES && Transact(responses, k, tries) == Returned(EAGAIN)
    ensures StaleGeneration in responses
    decreases |responses| - k
  {
    if MayRetry(responses[k]) {
      TransactStale(responses, k + 1, tries + 1);
    }
  }

  /** Whatever the bus loses, pcr_modify changes the register only in atomic steps
      from the value it has at that moment to the modified value; that value is
      either the cached one, or has passed the check. At most one of these steps
      is answered, and then the call succeeds; the others are lost answers. And
      success means that there is an answered one, or that a bus reset is taken
      for success. */
  lemma {:induction false} PcrModifyAtomic<R>(transform: R -> R, check: R -> int, last: R, expected: R,
                                              succeedOnReset: bool, responses: seq<Response<R>>, k: nat)
    requires k <= |responses| && (expected == last || check(expected) >= 0)
    ensures var o := PcrModify(transform, check, last, expected, succeedOnReset, responses, k);
            && (o.write.Write? ==>
                 && k <= o.write.at < |responses| && responses[o.write.at] == Answered(o.write.was)
                 && o.write.now == transform(o.write.was) && o.last == o.write.now && o.err == 0
                 && (o.write.was == last || check(o.write.was) >= 0))
            && (o.write.NoWrite? ==> o.last == last)
            && (o.err == 0 && o.write.NoWrite? ==> succeedOnReset && StaleGeneration in responses)
            && (forall i :: i in o.lost ==>
                  && k <= i < |responses| && responses[i].AnswerLost?
                  && (responses[i].pcr == last || check(responses[i].pcr) >= 0))
            && o.err <= 0
    decreases |responses| - k
  {
    LostSwapsLost(expected, responses, k, 0);
    match Transact(responses, k, 0)
    case Returned(err) =>
      if err == EAGAIN {
        TransactStale(responses, k, 0);
      }
    case Old(v, at) =>
      if v != expected && check(v) >= 0 {
        PcrModifyAtomic(transform, check, last, v, succeedOnReset, responses, at + 1);
      }
  }

  /** pcr_modify. */
  method PcrModifyLoop<R(==)>(transform: R -> R, check: R -> int, last: R, succeedOnReset: bool,
                              responses: seq<Response<R>>) returns (err: int, newLast: R)
    ensures var o := PcrModify(transform, check, last, last, succeedOnReset, responses, 0);
            err == o.err && newLast == o.last
  {
    newLast := last;
    var expected := last;
    var k := 0;
    ghost var goal := PcrModify(transform, check, last, last, succeedOnReset, responses, 0);
    while true
      invariant k <= |responses| && newLast == last
      invariant var o := PcrModify(transform, check, last, expected, succeedOnReset, responses, k);
                o.err == goal.err && o.last == goal.last
      decreases |responses| - k
    {
      var modified := transform(expected);
      var reply := LockTransaction(responses, k);
      if reply.Returned? {
        err := reply.err;
        if err == EAGAIN && succeedOnReset {
          err := 0;
        }
        return;
      }
      var current := reply.pcr;
      if current == expected {
        newLast := modified;
        err := 0;
        return;
      }
      err := check(current);
      if err < 0 {
        return;
      }
      expected := current;
      k := reply.at + 1;
    }
  }

  // ---------------------------------------------------------------------
  // When a call has changed the register without knowing
  // ---------------------------------------------------------------------

  /** What the call compares with when response k comes, in which try of the
      transaction; or it is over by then. */
  datatype Place<R> = Over | Comparing(expected: R, tries: nat)

  function PlaceAt<R(==)>(check: R -> int, last: R, responses: seq<Response<R>>, k: nat): (p: Place<R>)
    requires k <= |responses|
    ensures p.Comparing? ==> p.tries < TRIES
  {
    if k == 0 then Comparing(last, 0)
    else
      match PlaceAt(check, last, responses, k - 1)
      case Over => Over
      case Comparing(expected, tries) =>
        match responses[k - 1]
        case Answered(v) => if v == expected || check(v) < 0 then Over else Comparing(v, 0)
        case StaleGeneration => Over
        case Refused => Over
        case _ => if tries + 1 >= TRIES then Over else Comparing(expected, tries + 1)
  }

  /** The device has just the value that the request compares with, swaps, and
      its answer is lost. */
  predicate IsLostSwap<R(==)>(check: R -> int, last: R, responses: seq<Response<R>>, i: nat) {
    && i < |responses|
    && var place := PlaceAt(check, last, responses, i);
    && place.Comparing? && responses[i] == AnswerLost(place.expected)
  }

  lemma {:induction false} OverStaysOver<R>(check: R -> int, last: R, responses: seq<Response<R>>, k: nat, i: nat)
    requires k <= i <= |responses| && PlaceAt(check, last, responses, k).Over?
    ensures PlaceAt(check, last, responses, i).Over?
  {
    if k < i {
      OverStaysOver(check, last, responses, k, i - 1);
    }
  }

  /** The same for one transaction: which of its requests are lost swaps, and where
      the call goes on. */
  lemma {:induction false} LostInTransaction<R>(check: R -> int, last: R, expected: R, responses: seq<Response<R>>,
                                                k: nat, tries: nat, i: nat)
    requires k <= |responses| && tries < TRIES && PlaceAt(check, last, responses, k) == Comparing(expected, tries)
    ensures var reply := Transact(responses, k, tries);
            && (k <= i && (reply.Old? ==> i <= reply.at) ==>
                  (i in LostSwaps(expected, responses, k, tries) <==> IsLostSwap(check, last, responses, i)))
            && (reply.Old? ==>
                  PlaceAt(check, last, responses, reply.at + 1) ==
                  if reply.pcr == expected || check(reply.pcr) < 0 then Over else Comparing(reply.pcr, 0))
    decreases |responses| - k
  {
    LostSwapsLost(expected, responses, k, tries);
    if k < |responses| {
      if MayRetry(responses[k]) && tries + 1 < TRIES {
        LostInTransaction(check, last, expected, responses, k + 1, tries + 1, i);
        LostSwapsLost(expected, responses, k + 1, tries + 1);
      } else if !responses[k].Answered? && k < i < |responses| {
        OverStaysOver(check, last, responses, k + 1, i);
      }
    }
  }

  /** The requests that have changed the register without an answer are exactly
      the lost swaps. */
  lemma {:induction false} LostIff<R>(transform: R -> R, check: R -> int, last: R, expected: R, succeedOnReset: bool,
                                      responses: seq<Response<R>>, k: nat, i: nat)
    requires k <= |responses| && PlaceAt(check, last, responses, k) == Comparing(expected, 0) && k <= i
    ensures i in PcrModify(transform, check, last, expected, succeedOnReset, responses, k).lost <==>
            IsLostSwap(check, last, responses, i)
    decreases |responses| - k
  {
    LostInTransaction(check, last, expected, responses, k, 0, i);
    LostSwapsLost(expected, responses, k, 0);
    var reply := Transact(responses, k, 0);
    if reply.Old? && i > reply.at {
      if reply.pcr == expected || check(reply.pcr) < 0 {
        if i < |responses| {
          OverStaysOver(check, last, responses, reply.at + 1, i);
        }
      } else {
        LostIff(transform, check, last, reply.pcr, succeedOnReset, responses, reply.at + 1, i);
      }
    } else if reply.Old? && reply.pcr != expected && check(reply.pcr) >= 0 {
      PcrModifyAtomic(transform, check, last, reply.pcr, succeedOnReset, responses, reply.at + 1);
    }
  }

  /** So a call that fails, or that a bus reset ends, has changed the register if
      and only if a lost swap was among its requests. */
  lemma ChangedIff<R>(transform: R -> R, check: R -> int, last: R, succeedOnReset: bool, responses: seq<Response<R>>)
    ensures var o := PcrModify(transform, check, last, last, succeedOnReset, responses, 0);
            && (o.err < 0 ==> o.write.NoWrite?)
            && (o.lost != {} <==> exists i :: IsLostSwap(check, last, responses, i))
  {
    var o := PcrModify(transform, check, last, last, succeedOnReset, responses, 0);
    PcrModifyAtomic(transform, check, last, last, succeedOnReset, responses, 0);
    if o.lost != {} {
      var i :| i in o.lost;
      LostIff(transform, check, last, last, succeedOnReset, responses, 0, i);
    }
    if i :| IsLostSwap(check, last, responses, i) {
      LostIff(transform, check, last, last, succeedOnReset, responses, 0, i);
    }
  }

  // ---------------------------------------------------------------------
  // When a bus reset ends a call
  // ---------------------------------------------------------------------

  /** Three tries without an answer are a failure; the third may still be answered. */
  lemma ThreeTries<R>(responses: seq<Response<R>>, k: nat)
    requires k + 3 <= |responses| && MayRetry(responses[k]) && MayRetry(responses[k + 1])
    ensures Transact(responses, k, 0) ==
            match responses[k + 2]
            case Answered(v) => Old(v, k + 2)
            case StaleGeneration => Returned(-11)
            case _ => Returned(-5)
  {
    assert Transact(responses, k, 0) == Transact(responses, k + 1, 1) == Transact(responses, k + 2, 2);
  }

  /** A request meets a bus reset. */
  predicate MeetsReset<R(==)>(check: R -> int, last: R, responses: seq<Response<R>>, i: nat) {
    i < |responses| && PlaceAt(check, last, responses, i).Comparing? && responses[i].StaleGeneration?
  }

  lemma {:induction false} ResetInTransaction<R>(check: R -> int, last: R, expected: R, responses: seq<Response<R>>,
                                                 k: nat, tries: nat, i: nat)
    returns (at: nat)
    requires k <= |responses| && tries < TRIES && PlaceAt(check, last, responses, k) == Comparing(expected, tries)
    ensures var reply := Transact(responses, k, tries);
            && (k <= i && (reply.Old? ==> i <= reply.at) && MeetsReset(check, last, responses, i) ==>
                  reply == Returned(EAGAIN))
            && (reply == Returned(EAGAIN) ==> MeetsReset(check, last, responses, at))
            && (reply.Old? ==>
                  PlaceAt(check, last, responses, reply.at + 1) ==
                  if reply.pcr == expected || check(reply.pcr) < 0 then Over else Comparing(reply.pcr, 0))
    decreases |responses| - k
  {
    at := k;
    if k < |responses| {
      if MayRetry(responses[k]) && tries + 1 < TRIES {
        at := ResetInTransaction(check, last, expected, responses, k + 1, tries + 1, i);
      } else if !responses[k].Answered? && k < i < |responses| {
        OverStaysOver(check, last, responses, k + 1, i);
      }
    }
  }

  lemma {:induction false} ResetInCall<R>(transform: R -> R, check: R -> int, last: R, expected: R,
                                          succeedOnReset: bool, responses: seq<Response<R>>, k: nat, i: nat)
    returns (at: nat)
    requires k <= |responses| && PlaceAt(check, last, responses, k) == Comparing(expected, 0)
    ensures var o := PcrModify(transform, check, last, expected, succeedOnReset, responses, k);
            var met := o.write.NoWrite? && o.err == if succeedOnReset then 0 else EAGAIN;
            && (k <= i && MeetsReset(check, last, responses, i) ==> met)
            && (met && (succeedOnReset || forall v :: check(v) != EAGAIN) ==> MeetsReset(check, last, responses, at))
    decreases |responses| - k
  {
    at := ResetInTransaction(check, last, expected, responses, k, 0, i);
    var reply := Transact(responses, k, 0);
    if reply.Old? {
      if reply.pcr == expected || check(reply.pcr) < 0 {
        if reply.at < i < |responses| {
          OverStaysOver(check, last, responses, reply.at + 1, i);
        }
      } else {
        at := ResetInCall(transform, check, last, reply.pcr, succeedOnReset, responses, reply.at + 1, i);
      }
    }
  }

  /** A call ends without a change of its own and with success, or with -EAGAIN if that
      is not wanted, exactly if one of its requests meets a bus reset. */
  lemma ResetIff<R>(transform: R -> R, check: R -> int, last: R, succeedOnReset: bool, responses: seq<Response<R>>)
    requires forall v :: check(v) != EAGAIN
    ensures var o := PcrModify(transform, check, last, last, succeedOnReset, responses, 0);
            o.write.NoWrite? && o.err == (if succeedOnReset then 0 else -11) <==>
            exists i :: MeetsReset(check, last, responses, i)
  {
    var at := ResetInCall(transform, check, last, last, succeedOnReset, responses, 0, 0);
    if i :| MeetsReset(check, last, responses, i) {
      var _ := ResetInCall(transform, check, last, last, succeedOnReset, responses, 0, i);
    }
  }
}
