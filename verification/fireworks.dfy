/** The response ring of Fireworks devices: the writer in
    sound/firewire/fireworks/fireworks_transaction.c and the reader in
    fireworks_hwdep.c, and what both amount to: a queue of whole messages. */
module Fireworks {
  import opened Rings

  type Byte = n: nat | n < 256

  const RCODE_COMPLETE := 0x0
  const RCODE_CONFLICT_ERROR := 0x4
  const ENOSPC := -28

  /** Sizes of struct snd_efw_transaction and of the event type before the data. */
  const HEADER_SIZE := 24
  const TYPE_SIZE := 4

  /** Bounds on the size of the ring, whatever the module parameter says. */
  const MINIMUM_SIZE := 0x200
  const MAXIMUM_SIZE := 4096

  function Be32(b: seq<Byte>): nat
    requires |b| >= 4
  {
    (b[0] as int) * 0x100_0000 + (b[1] as int) * 0x1_0000 + (b[2] as int) * 0x100 + b[3]
  }

  /** The four bytes of an unsigned 32-bit number, the most significant one first. */
  lemma Be32Is(n: nat)
    requires n < 0x1_0000_0000
    ensures Be32([n / 0x100_0000, n / 0x1_0000 % 0x100, n / 0x100 % 0x100, n % 0x100]) == n
  {
    assert n / 0x100 == n / 0x1_0000 * 0x100 + n / 0x100 % 0x100;
    assert n / 0x1_0000 == n / 0x100_0000 * 0x100 + n / 0x1_0000 % 0x100;
  }

  // ---------------------------------------------------------------------
  // The ring
  // ---------------------------------------------------------------------

  datatype AnyRing = Ring(buf: seq<Byte>, push: nat, pull: nat, queues: nat)

  type Ring = r: AnyRing | WellFormed(r) witness Ring([0, 0, 0, 0], 0, 0, 0)

  /** Both pointers are in the buffer; messages are read at quadlet boundaries. */
  predicate WellFormed(r: AnyRing) {
    r.push < |r.buf| && r.pull < |r.buf| <= MAXIMUM_SIZE && |r.buf| % 4 == 0 && r.pull % 4 == 0
  }

  /** How much of a response is stored: its length field decides, but no more
      than has been received. */
  function StoredLength(data: seq<Byte>): (n: nat)
    requires |data| >= HEADER_SIZE
    ensures n <= |data| && n <= 4 * Be32(data) && (n == |data| || n == 4 * Be32(data))
  {
    if Be32(data) * 4 < |data| then Be32(data) * 4 else |data|
  }

  function Capacity(r: Ring): nat
  {
    if r.push < r.pull then r.pull - r.push else |r.buf| - (r.push - r.pull)
  }

  /** copy_resp_to_buf. */
  function Push(r: Ring, data: seq<Byte>): (Ring, int)
    requires |data| >= HEADER_SIZE
  {
    var message := data[..StoredLength(data)];
    if Capacity(r) < |message| then (r, RCODE_CONFLICT_ERROR)
    else (Pushed(r, message), RCODE_COMPLETE)
  }

  function Pushed(r: Ring, message: seq<Byte>): Ring {
    Ring(Store(r.buf, r.push, message), Forward(r.push, |message|, |r.buf|), r.pull, r.queues + 1)
  }

  /** The length of the message at the pull pointer, in 32-bit arithmetic. */
  function NextLength(r: Ring): (n: nat)
    ensures n % 4 == 0
  {
    Be32(r.buf[r.pull..]) * 4 % 0x1_0000_0000
  }

  /** The loop of hwdep_read_resp_buf, with room for `remained` bytes. */
  function ReadAll(r: Ring, remained: nat): (Ring, seq<Byte>)
    decreases r.queues
  {
    if r.queues == 0 || remained < NextLength(r) then (r, [])
    else
      var n := NextLength(r);
      var (after, rest) := ReadAll(Pulled(r, n), remained - n);
      (after, Fetch(r.buf, r.pull, n) + rest)
  }

  function Pulled(r: Ring, n: nat): Ring
    requires r.queues > 0 && n % 4 == 0
  {
    ForwardAligned(r.pull, n, |r.buf|);
    r.(pull := Forward(r.pull, n, |r.buf|), queues := r.queues - 1)
  }

  // ---------------------------------------------------------------------
  // struct snd_efw, changed in place
  // ---------------------------------------------------------------------

  class Efw {
    const respBuf: array<Byte>
    var pushPtr: nat
    var pullPtr: nat
    var respQueues: nat

    ghost function View(): AnyRing
      reads this, respBuf
    {
      Ring(respBuf[..], pushPtr, pullPtr, respQueues)
    }

    /** snd_efw_probe prepares the buffer. */
    constructor (parameter: nat)
      requires parameter % 4 == 0
      ensures fresh(respBuf) && WellFormed(View()) && Represents(View(), [])
      ensures respBuf.Length == if parameter < 512 then 512 else if parameter > 4096 then 4096 else parameter
    {
      var size := if parameter < MINIMUM_SIZE then MINIMUM_SIZE
                  else if parameter > MAXIMUM_SIZE then MAXIMUM_SIZE
                  else parameter;
      respBuf := new Byte[size];
      pushPtr, pullPtr, respQueues := 0, 0, 0;
    }

    method CopyRespToBuf(data: seq<Byte>) returns (rcode: int)
      requires WellFormed(View()) && |data| >= HEADER_SIZE
      modifies this, respBuf
      ensures WellFormed(View()) && (View(), rcode) == Push(old(View()), data)
    {
      var length := Be32(data) * 4;
      if length > |data| {
        length := |data|;
      }
      var capacity := if pushPtr < pullPtr then pullPtr - pushPtr else respBuf.Length - (pushPtr - pullPtr);
      if capacity < length {
        return RCODE_CONFLICT_ERROR;
      }
      pushPtr := CopyIn(respBuf, pushPtr, data[..length]);
      respQueues := respQueues + 1;
      rcode := RCODE_COMPLETE;
    }

    method PeekLength() returns (length: nat)
      requires WellFormed(View())
      ensures length == NextLength(View())
    {
      assert respBuf[pullPtr..pullPtr + 4] == respBuf[..][pullPtr..][..4];
      length := Be32(respBuf[pullPtr..pullPtr + 4]) * 4 % 0x1_0000_0000;
    }

    method Pull(length: nat) returns (block: seq<Byte>)
      requires WellFormed(View()) && respQueues > 0 && length % 4 == 0
      modifies this
      ensures View() == Pulled(old(View()), length) && block == Fetch(respBuf[..], old(pullPtr), length)
    {
      pullPtr, block := CopyOut(respBuf, pullPtr, length);
      respQueues := respQueues - 1;
    }

    method ReadRespBuf(room: nat) returns (result: int, data: seq<Byte>)
      requires WellFormed(View())
      modifies this
      ensures WellFormed(View())
      ensures if room < 28
              then result == -28 && data == [] && View() == old(View())
              else (View(), data) == ReadAll(old(View()), room - 4) && result == |data|
    {
      result, data := 0, [];
      if room < TYPE_SIZE + HEADER_SIZE {
        result := ENOSPC;
        return;
      }
      var remained: nat := room - TYPE_SIZE;
      ghost var goal := ReadAll(View(), remained);
      assert [] + goal.1 == goal.1;
      while respQueues > 0
        invariant WellFormed(View()) && result == |data|
        invariant var (after, rest) := ReadAll(View(), remained); (after, data + rest) == goal
        decreases respQueues
      {
        var length := PeekLength();
        if remained < length {
          assert data + [] == data;
          break;
        }
        ghost var before := View();
        ghost var rest := ReadAll(before, remained).1;
        var block := Pull(length);
        ghost var tail := ReadAll(View(), remained - length).1;
        assert rest == block + tail;
        assert data + (block + tail) == (data + block) + tail;
        result := result + length;
        remained := remained - length;
        data := data + block;
      }
      assert data + [] == data;
    }
  }

  // ---------------------------------------------------------------------
  // The queue
  // ---------------------------------------------------------------------

  /** A response as a device sends it: at least a header, and no more quadlets
      announced than received. */
  predicate IsResponse(data: seq<Byte>) {
    |data| >= HEADER_SIZE && HEADER_SIZE <= Be32(data) * 4 <= |data|
  }

  /** The stored part of a response. */
  predicate IsMessage(m: seq<Byte>) { |m| >= HEADER_SIZE && Be32(m) * 4 == |m| }

  function Message(data: seq<Byte>): (m: seq<Byte>)
    requires IsResponse(data)
    ensures IsMessage(m)
  {
    data[..Be32(data) * 4]
  }

  type Queue = q: seq<seq<Byte>> | forall m :: m in q ==> IsMessage(m)

  function Flat(q: seq<seq<Byte>>): seq<Byte> {
    if q == [] then [] else q[0] + Flat(q[1..])
  }

  lemma {:induction false} FlatAppend(q: seq<seq<Byte>>, m: seq<Byte>)
    ensures Flat(q + [m]) == Flat(q) + m
  {
    if q == [] {
      assert q + [m] == [m] && [m][1..] == [];
      assert m + [] == m == [] + m;
    } else {
      FlatAppend(q[1..], m);
      assert (q + [m])[1..] == q[1..] + [m];
      assert q[0] + (Flat(q[1..]) + m) == (q[0] + Flat(q[1..])) + m;
    }
  }

  /** The ring holds the messages of q, one behind the other. */
  ghost predicate Represents(r: Ring, q: Queue) {
    r.queues == |q| && Holds(r.buf, r.pull, r.push, Flat(q))
  }

  predicate Full(q: Queue, size: nat) { |Flat(q)| == size }

  function FifoPush(q: Queue, size: nat, data: seq<Byte>): (Queue, int)
    requires IsResponse(data)
  {
    if |Flat(q)| + |Message(data)| <= size then (q + [Message(data)], RCODE_COMPLETE) else (q, RCODE_CONFLICT_ERROR)
  }

  /** As many whole messages as there is room for, oldest first. */
  function FifoRead(q: Queue, remained: nat): (Queue, seq<Byte>) {
    if q == [] || remained < |q[0]| then (q, [])
    else
      var (after, rest) := FifoRead(q[1..], remained - |q[0]|);
      (after, q[0] + rest)
  }

  // ---------------------------------------------------------------------
  // The ring refines the queue
  // ---------------------------------------------------------------------

  lemma CapacityIs(r: Ring, q: Queue)
    requires Represents(r, q)
    ensures Capacity(r) == if Full(q, |r.buf|) then |r.buf| else |r.buf| - |Flat(q)|
  {
    HoldsDistance(r.buf, r.pull, r.push, Flat(q));
  }

  lemma PushRefines(r: Ring, q: Queue, data: seq<Byte>)
    requires Represents(r, q) && IsResponse(data) && !Full(q, |r.buf|)
    ensures Represents(Push(r, data).0, FifoPush(q, |r.buf|, data).0)
    ensures Push(r, data).1 == FifoPush(q, |r.buf|, data).1
  {
    CapacityIs(r, q);
    var m := Message(data);
    if |Flat(q)| + |m| <= |r.buf| {
      StoredRepresents(r, q, m);
    }
  }

  lemma StoredRepresents(r: Ring, q: Queue, m: seq<Byte>)
    requires Represents(r, q) && IsMessage(m) && |Flat(q)| + |m| <= |r.buf|
    ensures Represents(Pushed(r, m), q + [m])
  {
    FlatAppend(q, m);
    Append(r.buf, r.pull, r.push, Flat(q), m);
  }

  /** Whether a response may arrive: the ring is not full, or the message is
      larger than the whole ring and refused in any case. */
  predicate Harmless(q: Queue, size: nat, data: seq<Byte>)
    requires IsResponse(data)
  {
    !Full(q, size) || |Message(data)| > size
  }

  /** A response is stored whole, as far as it goes, with rcode 0; or it is refused with
      a conflict, and nothing has changed. */
  lemma PushAnswers(r: Ring, data: seq<Byte>)
    requires |data| >= 24
    ensures var (after, rcode) := Push(r, data); var n := StoredLength(data);
            if n <= Capacity(r)
            then
              && rcode == 0 && after.queues == r.queues + 1 && after.pull == r.pull && |after.buf| == |r.buf|
              && after.push == Forward(r.push, n, |r.buf|)
              && (n <= |r.buf| ==> Fetch(after.buf, r.push, n) == data[..n])
            else rcode == 4 && after == r
  {
    var m := data[..StoredLength(data)];
    if |m| <= |r.buf| {
      FetchStored(r.buf, r.push, m);
    }
  }

  /** The writer cannot tell a full ring from an empty one: it answers as the
      queue does exactly when the arrival is harmless. */
  lemma PushAgreesIff(r: Ring, q: Queue, data: seq<Byte>)
    requires Represents(r, q) && IsResponse(data)
    ensures Push(r, data).1 == FifoPush(q, |r.buf|, data).1 <==> Harmless(q, |r.buf|, data)
  {
    CapacityIs(r, q);
  }

  lemma HarmlessPushRefines(r: Ring, q: Queue, data: seq<Byte>)
    requires Represents(r, q) && IsResponse(data) && Harmless(q, |r.buf|, data)
    ensures Represents(Push(r, data).0, FifoPush(q, |r.buf|, data).0)
    ensures Push(r, data).1 == FifoPush(q, |r.buf|, data).1
  {
    if Full(q, |r.buf|) {
      CapacityIs(r, q);
    } else {
      PushRefines(r, q, data);
    }
  }

  /** Otherwise the response is reported as stored, and it is: over the messages
      at the pull pointer, which are lost, and the count of messages is wrong. */
  lemma FullRingOverwrites(r: Ring, q: Queue, data: seq<Byte>)
    requires Represents(r, q) && IsResponse(data) && !Harmless(q, |r.buf|, data)
    ensures var (after, rcode) := Push(r, data); var m := Message(data);
            && rcode == 0 && after.queues == |q| + 1 && after.pull == r.pull
            && Fetch(after.buf, after.pull, |m|) == m
            && Fetch(r.buf, r.pull, |m|) == Flat(q)[..|m|]
  {
    hide Store, Flat;
    CapacityIs(r, q);
    var m := Message(data);
    HoldsDistance(r.buf, r.pull, r.push, Flat(q));
    FetchStored(r.buf, r.push, m);
    FetchAdd(r.buf, r.pull, |m|, |Flat(q)| - |m|);
  }

  lemma NextMessage(r: Ring, q: Queue)
    requires Represents(r, q) && q != []
    ensures NextLength(r) == |q[0]| && Fetch(r.buf, r.pull, |q[0]|) == q[0]
    ensures Represents(Pulled(r, |q[0]|), q[1..])
  {
    HeaderFits(r);
    Remove(r.buf, r.pull, r.push, q[0], Flat(q[1..]));
    LengthIs(r, q[0]);
    hide Fetch, Forward, NextLength, Be32, Holds;
  }

  lemma LengthIs(r: Ring, m: seq<Byte>)
    requires r.pull + 4 <= |r.buf|
    requires IsMessage(m) && |m| <= |r.buf| && Fetch(r.buf, r.pull, |m|) == m
    ensures NextLength(r) == |m|
  {
    HeaderIsContiguous(r, m);
    InRange(Be32(m));
    hide Be32, Fetch, WellFormed;
  }

  lemma InRange(quadlets: nat)
    requires quadlets * 4 <= MAXIMUM_SIZE
    ensures quadlets * 4 % 0x1_0000_0000 == quadlets * 4
  {
  }

  lemma HeaderFits(r: Ring)
    ensures r.pull + 4 <= |r.buf|
  {
  }

  lemma HeaderIsContiguous(r: Ring, m: seq<Byte>)
    requires r.pull + 4 <= |r.buf|
    requires IsMessage(m) && |m| <= |r.buf| && Fetch(r.buf, r.pull, |m|) == m
    ensures Be32(r.buf[r.pull..]) == Be32(m)
  {
    ByteAt(r, m, 0);
    ByteAt(r, m, 1);
    ByteAt(r, m, 2);
    ByteAt(r, m, 3);
  }

  lemma ByteAt(r: Ring, m: seq<Byte>, i: nat)
    requires i < |m| <= |r.buf| && r.pull + i < |r.buf| && Fetch(r.buf, r.pull, |m|) == m
    ensures r.buf[r.pull..][i] == m[i]
  {
    FetchAt(r.buf, r.pull, |m|, i);
  }

  lemma {:induction false} ReadRefines(r: Ring, q: Queue, remained: nat)
    requires Represents(r, q)
    ensures Represents(ReadAll(r, remained).0, FifoRead(q, remained).0)
    ensures ReadAll(r, remained).1 == FifoRead(q, remained).1
    ensures ReadAll(r, remained).0.buf == r.buf
    decreases |q|
  {
    if q != [] {
      NextMessage(r, q);
      if |q[0]| <= remained {
        ReadRefines(Pulled(r, |q[0]|), q[1..], remained - |q[0]|);
      }
    }
  }

  // ---------------------------------------------------------------------
  // Any interleaving of responses and reads
  // ---------------------------------------------------------------------

  type Response = d: seq<Byte> | IsResponse(d) witness [0, 0, 0, 6] + seq(20, _ => 0)

  datatype Event = Arrive(data: Response) | Read(remained: nat)

  datatype Reply = Code(rcode: int) | Data(bytes: seq<Byte>)

  function RingStep(r: Ring, e: Event): (Ring, Reply)
  {
    match e
    case Arrive(data) => var (after, rcode) := Push(r, data); (after, Code(rcode))
    case Read(remained) => var (after, bytes) := ReadAll(r, remained); (after, Data(bytes))
  }

  function FifoStep(q: Queue, size: nat, e: Event): (Queue, Reply) {
    match e
    case Arrive(data) => var (after, rcode) := FifoPush(q, size, data); (after, Code(rcode))
    case Read(remained) => var (after, bytes) := FifoRead(q, remained); (after, Data(bytes))
  }

  function RingRun(r: Ring, events: seq<Event>): seq<Reply>
    decreases |events|
  {
    if events == [] then []
    else [RingStep(r, events[0]).1] + RingRun(RingStep(r, events[0]).0, events[1..])
  }

  function FifoRun(q: Queue, size: nat, events: seq<Event>): seq<Reply>
    decreases |events|
  {
    if events == [] then []
    else [FifoStep(q, size, events[0]).1] + FifoRun(FifoStep(q, size, events[0]).0, size, events[1..])
  }

  /** Every response that arrives is harmless. */
  predicate NeverOverwrites(q: Queue, size: nat, events: seq<Event>)
    decreases |events|
  {
    events == [] || ((events[0].Arrive? ==> Harmless(q, size, events[0].data))
                     && NeverOverwrites(FifoStep(q, size, events[0]).0, size, events[1..]))
  }

  function RingAfter(r: Ring, events: seq<Event>): Ring
    decreases |events|
  {
    if events == [] then r else RingAfter(RingStep(r, events[0]).0, events[1..])
  }

  lemma StepRefines(r: Ring, q: Queue, e: Event)
    requires Represents(r, q) && (e.Arrive? ==> Harmless(q, |r.buf|, e.data))
    ensures Represents(RingStep(r, e).0, FifoStep(q, |r.buf|, e).0)
    ensures RingStep(r, e).1 == FifoStep(q, |r.buf|, e).1
    ensures |RingStep(r, e).0.buf| == |r.buf|
  {
    match e
    case Arrive(data) => HarmlessPushRefines(r, q, data);
    case Read(remained) => ReadRefines(r, q, remained);
  }

  /** Every response is answered, and every read returns, as if the ring were a
      queue of whole messages bounded by the size of the ring, if and only if no
      response arrives that overwrites; and then the ring goes on holding the
      queue's messages, and resp_queues counts them. */
  lemma {:induction false} RingIsFifoIff(r: Ring, q: Queue, events: seq<Event>)
    requires Represents(r, q)
    ensures RingRun(r, events) == FifoRun(q, |r.buf|, events) <==> NeverOverwrites(q, |r.buf|, events)
    ensures NeverOverwrites(q, |r.buf|, events) ==>
              && Represents(RingAfter(r, events), FifoAfter(q, |r.buf|, events))
              && RingAfter(r, events).queues == |FifoAfter(q, |r.buf|, events)|
              && |RingAfter(r, events).buf| == |r.buf|
    decreases |events|
  {
    if events != [] {
      var e, rest := events[0], events[1..];
      var (ring, reply) := RingStep(r, e);
      var (queue, expected) := FifoStep(q, |r.buf|, e);
      RunsSplit(reply, RingRun(ring, rest), expected, FifoRun(queue, |r.buf|, rest));
      if e.Arrive? && !Harmless(q, |r.buf|, e.data) {
        PushAgreesIff(r, q, e.data);
      } else {
        StepRefines(r, q, e);
        RingIsFifoIff(ring, queue, rest);
      }
    }
  }

  lemma RunsSplit(a: Reply, x: seq<Reply>, b: Reply, y: seq<Reply>)
    ensures [a] + x == [b] + y <==> a == b && x == y
  {
    if [a] + x == [b] + y {
      assert ([a] + x)[0] == ([b] + y)[0] && ([a] + x)[1..] == x && ([b] + y)[1..] == y;
    }
  }

  // ---------------------------------------------------------------------
  // The overwriting is reached
  // ---------------------------------------------------------------------

  function Arrivals(ds: seq<Response>): seq<Event> { seq(|ds|, i requires 0 <= i < |ds| => Arrive(ds[i])) }

  function Messages(ds: seq<Response>): (q: Queue)
    ensures |q| == |ds|
  {
    seq(|ds|, i requires 0 <= i < |ds| => Message(ds[i]))
  }

  /** Responses that fit are all stored, in order. */
  lemma {:induction false} AllAreStored(q: Queue, size: nat, ds: seq<Response>)
    requires |Flat(q + Messages(ds))| <= size
    ensures NeverOverwrites(q, size, Arrivals(ds)) && FifoAfter(q, size, Arrivals(ds)) == q + Messages(ds)
    decreases |ds|
  {
    hide Flat;
    if ds == [] {
      assert q + [] == q;
    } else {
      var m, rest := Message(ds[0]), ds[1..];
      assert Arrivals(ds)[1..] == Arrivals(rest);
      assert q + Messages(ds) == (q + [m]) + Messages(rest);
      FlatAppend(q, m);
      FlatConcat(q + [m], Messages(rest));
      StoredNext(q, size, ds[0]);
      hide Flat, FifoStep, Harmless, Message;
      AllAreStored(q + [m], size, rest);
    }
  }

  lemma StoredNext(q: Queue, size: nat, d: Response)
    requires |Flat(q)| + |Message(d)| <= size
    ensures Harmless(q, size, d) && FifoStep(q, size, Arrive(d)).0 == q + [Message(d)]
  {
  }

  lemma FlatCons(m: seq<Byte>, q: seq<seq<Byte>>)
    ensures Flat([m] + q) == m + Flat(q)
  {
    assert ([m] + q)[1..] == q;
  }

  lemma {:induction false} FlatConcat(a: seq<seq<Byte>>, b: seq<seq<Byte>>)
    ensures Flat(a + b) == Flat(a) + Flat(b)
  {
    if a == [] {
      assert a + b == b;
    } else {
      hide Flat;
      var head, rest := a[0], a[1..];
      assert a == [head] + rest && a + b == [head] + (rest + b);
      FlatCons(head, rest);
      FlatCons(head, rest + b);
      FlatConcat(rest, b);
      assert head + (Flat(rest) + Flat(b)) == (head + Flat(rest)) + Flat(b);
    }
  }

  /** Responses do that: from an empty ring, any that together fill it exactly are
      all stored, and then one more is. The reader finds it where the first ones
      were, and believes that there is one more message than there were. */
  lemma OverwriteIsReached(r: Ring, ds: seq<Response>, last: Response)
    requires Represents(r, []) && |Flat(Messages(ds))| == |r.buf| && |Message(last)| <= |r.buf|
    ensures var full := RingAfter(r, Arrivals(ds));
            && full.queues == |ds| && |full.buf| == |r.buf|
            && Fetch(full.buf, full.pull, |full.buf|) == Flat(Messages(ds))
            && var (after, rcode) := Push(full, last);
            && rcode == RCODE_COMPLETE && after.queues == |ds| + 1 && after.pull == full.pull
            && Fetch(after.buf, after.pull, |Message(last)|) == Message(last)
  {
    var full := RingAfter(r, Arrivals(ds));
    assert [] + Messages(ds) == Messages(ds);
    AllAreStored([], |r.buf|, ds);
    RingIsFifoIff(r, [], Arrivals(ds));
    FullRingOverwrites(full, Messages(ds), last);
  }

  /** A response of n bytes, all of them announced. */
  function Sized(n: nat): (d: Response)
    requires n % 4 == 0 && HEADER_SIZE <= n <= MINIMUM_SIZE
    ensures |Message(d)| == |d| == n
  {
    [0, 0, 0, n / 4] + seq(n - 4, _ => 0)
  }

  /** And every ring can be filled by responses of the size that a device may
      send, whatever the parameter resp_buf_size. */
  lemma {:induction false} EveryRingCanBeFilled(size: nat) returns (ds: seq<Response>)
    requires size % 4 == 0 && size >= HEADER_SIZE
    ensures |Flat(Messages(ds))| == size && forall i :: 0 <= i < |ds| ==> |ds[i]| <= MINIMUM_SIZE
  {
    if size <= MINIMUM_SIZE {
      ds := [Sized(size)];
      assert Messages(ds) == [] + [Message(Sized(size))];
      FlatAppend([], Message(Sized(size)));
    } else {
      var n := MINIMUM_SIZE - HEADER_SIZE;
      var rest := EveryRingCanBeFilled(size - n);
      ds := [Sized(n)] + rest;
      assert Messages(ds)[1..] == Messages(rest);
    }
  }

  /** Nothing is lost, repeated or reordered: the bytes read and the bytes still
      stored are the accepted messages, in the order of their arrival. */
  lemma {:induction false} FifoKeepsOrder(q: Queue, size: nat, events: seq<Event>)
    ensures Flat(q) + Accepted(q, size, events) == ReadOut(FifoRun(q, size, events)) + Flat(FifoAfter(q, size, events))
    decreases |events|
  {
    if events == [] {
      assert Flat(q) + [] == [] + Flat(q);
    } else {
      var (next, reply) := FifoStep(q, size, events[0]);
      var rest := events[1..];
      FifoKeepsOrder(next, size, rest);
      FifoStepKeepsOrder(q, size, events[0]);
      var run, end := FifoRun(next, size, rest), Flat(FifoAfter(next, size, rest));
      assert ([reply] + run)[1..] == run;
      Regroup(Flat(q), Enters(q, size, events[0]), Accepted(next, size, rest), Leaves(reply), Flat(next), ReadOut(run),
              end);
    }
  }

  lemma Regroup(a: seq<Byte>, enters: seq<Byte>, later: seq<Byte>, leaves: seq<Byte>, b: seq<Byte>, out: seq<Byte>,
                end: seq<Byte>)
    requires a + enters == leaves + b && b + later == out + end
    ensures a + (enters + later) == (leaves + out) + end
  {
    assert a + (enters + later) == (a + enters) + later == leaves + (b + later);
    assert (leaves + out) + end == leaves + (out + end);
  }

  function Enters(q: Queue, size: nat, e: Event): seq<Byte> {
    if FifoStep(q, size, e).1 == Code(RCODE_COMPLETE) then Message(e.data) else []
  }

  function Leaves(reply: Reply): seq<Byte> { if reply.Data? then reply.bytes else [] }

  lemma FifoStepKeepsOrder(q: Queue, size: nat, e: Event)
    ensures Flat(q) + Enters(q, size, e) == Leaves(FifoStep(q, size, e).1) + Flat(FifoStep(q, size, e).0)
  {
    match e
    case Arrive(data) =>
      FlatAppend(q, Message(data));
      assert Flat(q) + [] == Flat(q);
    case Read(remained) =>
      FifoReadSplits(q, remained);
  }

  lemma {:induction false} FifoReadSplits(q: Queue, remained: nat)
    ensures Flat(q) == FifoRead(q, remained).1 + Flat(FifoRead(q, remained).0)
  {
    if q != [] && remained >= |q[0]| {
      FifoReadSplits(q[1..], remained - |q[0]|);
      var (after, rest) := FifoRead(q[1..], remained - |q[0]|);
      assert q[0] + (rest + Flat(after)) == (q[0] + rest) + Flat(after);
    }
  }

  function Accepted(q: Queue, size: nat, events: seq<Event>): seq<Byte>
    decreases |events|
  {
    if events == [] then []
    else
      var next := FifoStep(q, size, events[0]).0;
      Enters(q, size, events[0]) + Accepted(next, size, events[1..])
  }

  function FifoAfter(q: Queue, size: nat, events: seq<Event>): Queue
    decreases |events|
  {
    if events == [] then q else FifoAfter(FifoStep(q, size, events[0]).0, size, events[1..])
  }

  function ReadOut(replies: seq<Reply>): seq<Byte>
    decreases |replies|
  {
    if replies == [] then [] else Leaves(replies[0]) + ReadOut(replies[1..])
  }
}
