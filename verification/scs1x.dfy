/** The SCS.1x driver state and its callbacks (sound/firewire/scs1x.c), and the
    output side as a state machine over interleaved events. */
module Scs1x {
  import opened Scs1xCodec

  /** One run of the tasklet's loop: parse until a packet is complete or the
      bytes are used up. Gives the state, the packet if any, and what is left. */
  function Take(p: Parser, bytes: seq<Byte>): (Parser, seq<Packet>, seq<Byte>)
    requires p.Valid()
    decreases |bytes|
  {
    if bytes == [] then (p, [], []) else
      var (q, sent) := Consume(p, bytes[0]);
      ConsumeSafe(p, bytes[0]);
      if sent != [] then (q, sent, bytes[1..]) else Take(q, bytes[1..])
  }

  lemma TakeStep(p: Parser, bytes: seq<Byte>)
    requires p.Valid() && bytes != []
    ensures var (q, sent) := Consume(p, bytes[0]);
            q.Valid() && Take(p, bytes) == if sent != [] then (q, sent, bytes[1..]) else Take(q, bytes[1..])
  {
    ConsumeSafe(p, bytes[0]);
  }

  lemma {:induction false} TakeIsFeed(p: Parser, bytes: seq<Byte>)
    requires p.Valid()
    ensures var (q, sent, rest) := Take(p, bytes);
            && q.Valid()
            && Feed(p, bytes) == (Feed(q, rest).0, sent + Feed(q, rest).1)
            && (sent == [] ==> rest == [])
    decreases |bytes|
  {
    var (t, taken, rest) := Take(p, bytes);
    if bytes == [] {
      assert [] + Feed(p, []).1 == Feed(p, []).1;
    } else {
      ConsumeSafe(p, bytes[0]);
      var (q, sent) := Consume(p, bytes[0]);
      if sent == [] {
        TakeIsFeed(q, bytes[1..]);
        assert [] + (taken + Feed(t, rest).1) == taken + Feed(t, rest).1;
      }
    }
  }

  lemma ExpandReceived(count: nat, received: seq<Byte>, data: seq<Byte>, i: nat)
    requires i < |data|
    ensures var (next, head) := ExpandMidi(count, [data[i]]); var (last, tail) := ExpandMidi(next, data[i + 1..]);
            && ExpandMidi(count, data[i..]).0 == last
            && received + ExpandMidi(count, data[i..]).1 == (received + head) + tail
  {
    ExpandFirst(count, data[i], data[i + 1..]);
    assert data[i..] == [data[i]] + data[i + 1..];
    assert [data[i]][1..] == [];
  }

  class Scs {
    var transactionRunning: bool
    var outputIdle: bool
    var outputStatus: Byte
    var outputBytes: nat
    var outputEscaped: bool
    var outputEscapeHighNibble: bool
    var inputEscapeCount: nat
    const buffer: array<Byte>

    // The rawmidi substreams and the bus, as far as this driver uses them:
    var output: bool                 // output stream triggered up
    var pending: seq<Byte>           // bytes waiting in the output stream
    var received: seq<Byte>          // bytes handed to the input stream
    var requests: seq<Packet>        // write requests handed to the bus

    /** The parser's state while `i` is the local copy of outputBytes. */
    ghost function View(i: nat): Parser
      reads this, buffer
    {
      Parser(buffer[..], i, outputStatus, outputEscaped, outputEscapeHighNibble)
    }

    ghost predicate Valid()
      reads this, buffer
    {
      View(outputBytes).Valid() && inputEscapeCount <= 3
    }

    /** What the events below work on. */
    ghost function TheSystem(): System
      reads this, buffer
    {
      System(View(outputBytes), pending, transactionRunning, output, requests)
    }

    constructor ()
      ensures Valid() && fresh(buffer) && !transactionRunning && outputIdle && !output
      ensures IsOpened(View(outputBytes)) && inputEscapeCount == 0
      ensures pending == [] && received == [] && requests == []
    {
      buffer := new Byte[MAX_PACKET_SIZE];
      transactionRunning, outputIdle, output := false, true, false;
      outputStatus, outputBytes, outputEscaped, outputEscapeHighNibble := 0, 1, false, false;
      inputEscapeCount := 0;
      pending, received, requests := [], [], [];
    }

    /** scs_output_open, perhaps while a transaction of an earlier stream runs. */
    method OutputOpen()
      requires Valid()
      modifies this`outputStatus, this`outputBytes, this`outputEscaped
      ensures Valid() && IsOpened(View(outputBytes))
      ensures TheSystem() == old(TheSystem()).(parser := View(outputBytes))
    {
      outputStatus := 0;
      outputBytes := 1;
      outputEscaped := false;
    }

    method OutputTrigger(up: bool)
      requires Valid()
      modifies this`output, this`outputIdle
      ensures Valid() && TheSystem() == Next(old(TheSystem()), Trigger(up))
      ensures outputIdle == (old(outputIdle) && !up)
    {
      output := up;
      if up {
        outputIdle := false;
      }
    }

    method WriteCallback()
      requires Valid()
      modifies this`transactionRunning
      ensures Valid() && TheSystem() == Next(old(TheSystem()), Complete)
    {
      transactionRunning := false;
    }

    method EscapedByte(i: nat, byte: Byte) returns (j: nat)
      requires View(i).Valid() && outputEscaped && byte < 0x80
      modifies buffer, this`outputEscapeHighNibble
      ensures Consume(old(View(i)), byte) == (View(j), [])
    {
      j := i;
      if outputEscapeHighNibble {
        if i < MAX_PACKET_SIZE {
          buffer[i] := byte << 4;
          outputEscapeHighNibble := false;
        }
      } else {
        buffer[i] := buffer[i] | (byte & 0x0f);
        j := i + 1;
        outputEscapeHighNibble := true;
      }
    }

    /** What a handler of one byte does: it either goes on with the state that
        Consume gives, or has completed the packet in buffer[..j]. */
    twostate predicate Consumed(i: nat, byte: Byte, j: nat, done: bool)
      requires old(View(i).Valid())
      reads this, buffer
    {
      && j <= MAX_PACKET_SIZE == buffer.Length
      && Consume(old(View(i)), byte) == if done then Send(View(j), buffer[..][..j]) else (View(j), [])
    }

    method DataByte(i: nat, byte: Byte) returns (j: nat, done: bool)
      requires View(i).Valid() && !outputEscaped && byte < 0x80
      modifies buffer, this`outputEscapeHighNibble, this`outputEscaped
      ensures Consumed(i, byte, j, done)
    {
      j, done := i, false;
      if j == 1 {
        if !IsValidRunningStatus(outputStatus) {
          return;
        }
        buffer[0] := TAG_USER_DATA;
        buffer[1] := outputStatus;
        j := 2;
      }
      buffer[j] := byte;
      j := j + 1;
      assert buffer[..] == Expanded(old(View(i))).buffer[j - 1 := byte];
      if (j == 3 && IsTwoBytesCmd(outputStatus)) || (j == 4 && IsThreeBytesCmd(outputStatus)) {
        done := true;
        return;
      }
      if j == 1 + |ESCAPE_PREFIX| && buffer[1..1 + |ESCAPE_PREFIX|] == ESCAPE_PREFIX {
        outputEscaped := true;
        outputEscapeHighNibble := true;
        j := 0;
      }
      if j >= MAX_PACKET_SIZE {
        j := 1;
      }
    }

    method EndByte(i: nat) returns (j: nat, done: bool)
      requires View(i).Valid()
      modifies buffer, this`outputEscaped
      ensures Consumed(i, 0xf7, j, done)
    {
      j := i;
      if outputEscaped {
        if i >= 1 && outputEscapeHighNibble && buffer[0] != TAG_CHANGE_ADDRESS {
          return j, true;
        }
      } else {
        if i > 1 && outputStatus == 0xf0 {
          buffer[i] := 0xf7;
          j := i + 1;
          assert buffer[..][..j] == old(buffer[..])[..i] + [0xf7];
          return j, true;
        }
      }
      j, done := 1, false;
      outputEscaped := false;
    }

    method StatusByte(i: nat, byte: Byte) returns (j: nat, done: bool)
      requires View(i).Valid() && 0x80 <= byte && byte != 0xf7
      modifies buffer, this`outputEscaped, this`outputStatus
      ensures Consumed(i, byte, j, done)
    {
      j, done := i, false;
      if !IsInvalidCmd(byte) && byte < 0xf8 {
        buffer[0] := TAG_USER_DATA;
        buffer[1] := byte;
        j := 2;
        outputStatus := byte;
        outputEscaped := false;
        done := IsOneByteCmd(byte);
      }
    }

    method HandleByte(i: nat, byte: Byte) returns (j: nat, done: bool)
      requires View(i).Valid()
      modifies buffer, this`outputEscapeHighNibble, this`outputEscaped, this`outputStatus
      ensures Consumed(i, byte, j, done)
    {
      ConsumeSafe(View(i), byte);
      done := false;
      if outputEscaped && byte < 0x80 {
        j := EscapedByte(i, byte);
      } else if byte < 0x80 {
        j, done := DataByte(i, byte);
      } else if byte == 0xf7 {
        j, done := EndByte(i);
      } else {
        j, done := StatusByte(i, byte);
      }
    }

    /** The loop of scs_output_tasklet: stops at a complete packet (`done`) or
        when there are no bytes left. */
    method ParsePending(start: nat) returns (i: nat, done: bool)
      requires View(start).Valid()
      modifies buffer, this`outputEscapeHighNibble, this`outputEscaped, this`outputStatus, this`pending
      ensures i <= buffer.Length
      ensures old(Take(View(start), pending)) ==
              if done then (Send(View(i), buffer[..][..i]).0, [buffer[..][..i]], pending) else (View(i), [], [])
      ensures !done ==> pending == []
    {
      i, done := start, false;
      while pending != []
        invariant View(i).Valid() && Take(View(i), pending) == old(Take(View(start), pending))
        decreases |pending|
      {
        var byte := pending[0];
        TakeStep(View(i), pending);
        i, done := HandleByte(i, byte);
        pending := pending[1..];
        if done {
          return;
        }
      }
      done := false;
    }

    /** scs_output_tasklet. */
    method OutputTasklet()
      requires Valid()
      modifies this, buffer
      ensures Valid() && output == old(output)
      ensures inputEscapeCount == old(inputEscapeCount) && received == old(received)
      ensures TheSystem() == Next(old(TheSystem()), Run)
      ensures outputIdle == (old(outputIdle) || (!old(transactionRunning) && !transactionRunning))
    {
      hide Feed, Take;
      if transactionRunning {
        return;
      }
      if !output {
        outputIdle := true;
        return;
      }
      ParseAndSend();
    }

    /** Its main part: parsing up to a complete packet, and the request for that. */
    method ParseAndSend()
      requires Valid() && !transactionRunning && output
      modifies this, buffer
      ensures Valid() && output == old(output)
      ensures inputEscapeCount == old(inputEscapeCount) && received == old(received)
      ensures TheSystem() == Next(old(TheSystem()), Run)
      ensures outputIdle == (old(outputIdle) || !transactionRunning)
    {
      hide Feed, Take, Consume;
      var i, done := ParsePending(outputBytes);
      TakeIsFeed(old(View(outputBytes)), old(pending));
      if !done {
        outputBytes := i;
        outputIdle := true;
        assert requests + [] == requests;
        return;
      }
      SendRequest(i);
    }

    /** The rest of scs_output_tasklet, with a complete packet in buffer[..i]. */
    method SendRequest(i: nat)
      requires i <= buffer.Length
      modifies this`outputBytes, this`outputEscaped, this`transactionRunning, this`requests
      ensures outputBytes == 1 && !outputEscaped && transactionRunning
      ensures requests == old(requests) + [buffer[..][..i]]
    {
      outputBytes := 1;
      outputEscaped := false;
      transactionRunning := true;
      requests := requests + [buffer[..][..i]];
    }

    method InputEscapedByte(byte: Byte)
      modifies this`received
      ensures received == old(received) + Nibbles([byte])
    {
      NibblesOne(byte);
      received := received + [byte >> 4, byte & 0x0f];
    }

    method InputMidiByte(byte: Byte)
      modifies this`received, this`inputEscapeCount
      ensures var (count, bytes) := ExpandMidi(old(inputEscapeCount), [byte]);
              inputEscapeCount == count && received == old(received) + bytes
    {
      ghost var rest := [byte][1..];
      assert rest == [];
      if inputEscapeCount > 0 {
        InputEscapedByte(byte);
        inputEscapeCount := inputEscapeCount - 1;
        if inputEscapeCount == 0 {
          received := received + [0xf7];
        }
      } else if byte == 0xf9 {
        received := received + ESCAPE_PREFIX;
        InputEscapedByte(0x00);
        InputEscapedByte(0xf9);
        inputEscapeCount := 3;
      } else {
        received := received + [byte];
      }
    }

    method InputUserData(data: seq<Byte>)
      modifies this`received, this`inputEscapeCount
      ensures var (count, bytes) := ExpandMidi(old(inputEscapeCount), data);
              inputEscapeCount == count && received == old(received) + bytes
    {
      var i := 0;
      ghost var goal := ExpandMidi(inputEscapeCount, data);
      while i < |data|
        invariant 0 <= i <= |data|
        invariant goal.0 == ExpandMidi(inputEscapeCount, data[i..]).0
        invariant old(received) + goal.1 == received + ExpandMidi(inputEscapeCount, data[i..]).1
      {
        ExpandReceived(inputEscapeCount, received, data, i);
        InputMidiByte(data[i]);
        i := i + 1;
      }
    }

    method InputEscaped(data: seq<Byte>)
      modifies this`received
      ensures received == old(received) + Nibbles(data)
    {
      hide Nibbles;
      var i := 0;
      while i < |data|
        invariant 0 <= i <= |data|
        invariant old(received) + Nibbles(data) == received + Nibbles(data[i..])
      {
        NibblesCons(data[i], data[i + 1..]);
        assert data[i..] == [data[i]] + data[i + 1..];
        InputEscapedByte(data[i]);
        i := i + 1;
      }
    }

    /** scs_input_packet. */
    method InputPacket(data: seq<Byte>)
      requires |data| >= 1
      modifies this`received, this`inputEscapeCount
      ensures var (count, bytes) := ExpandPacket(old(inputEscapeCount), data);
              inputEscapeCount == count && received == old(received) + bytes
    {
      if data[0] == TAG_USER_DATA {
        InputUserData(data[1..]);
      } else {
        received := received + ESCAPE_PREFIX;
        InputEscaped(data);
        received := received + [0xf7];
        assert old(received) + ESCAPE_PREFIX + Nibbles(data) + [0xf7] ==
               old(received) + (ESCAPE_PREFIX + Nibbles(data) + [0xf7]);
      }
    }
  }

  // ---------------------------------------------------------------------
  // The output side over interleaved events
  // ---------------------------------------------------------------------

  datatype Event = Write(bytes: seq<Byte>) | Trigger(up: bool) | Run | Complete

  datatype System = System(parser: Parser, pending: seq<Byte>, running: bool, up: bool, requests: seq<Packet>)

  /** One atomic callback: Scs.OutputTrigger, Scs.OutputTasklet, Scs.WriteCallback,
      or bytes that an application writes. */
  function Next(s: System, e: Event): System
    requires s.parser.Valid()
  {
    match e
    case Write(bytes) => s.(pending := s.pending + bytes)
    case Trigger(up) => s.(up := up)
    case Complete => s.(running := false)
    case Run =>
      if s.running || !s.up then s else
        var (q, sent, rest) := Take(s.parser, s.pending);
        System(q, rest, sent != [], s.up, s.requests + sent)
  }

  /** State after a sequence of events. */
  function After(s: System, events: seq<Event>): (r: System)
    requires s.parser.Valid()
    ensures r.parser.Valid()
    decreases |events|
  {
    if events == [] then s else
      var before := After(s, events[..|events| - 1]);
      TakeIsFeed(before.parser, before.pending);
      Next(before, events[|events| - 1])
  }

  function Written(events: seq<Event>): seq<Byte>
    decreases |events|
  {
    if events == [] then [] else
      var e := events[|events| - 1];
      Written(events[..|events| - 1]) + if e.Write? then e.bytes else []
  }

  /** However the bytes are split over writes and tasklet runs, and however
      these interleave with transactions, one of which may still be running when
      the stream is opened: the requests made so far, followed by what parsing the
      waiting bytes would add, are the packets of the whole byte stream. */
  lemma {:induction false} SplitInvariance(p: Parser, running: bool, up: bool, events: seq<Event>)
    requires p.Valid()
    ensures var s := After(System(p, [], running, up, []), events);
            Feed(p, Written(events)) == (Feed(s.parser, s.pending).0, s.requests + Feed(s.parser, s.pending).1)
    decreases |events|
  {
    if events == [] {
      assert [] + Feed(p, []).1 == Feed(p, []).1;
    } else {
      var start, earlier, e := System(p, [], running, up, []), events[..|events| - 1], events[|events| - 1];
      SplitInvariance(p, running, up, earlier);
      var s := After(start, earlier);
      match e
      case Write(bytes) =>
        SplitWrite(p, Written(earlier), s, bytes);
      case Run =>
        assert Written(events) == Written(earlier);
        SplitRun(s);
      case Trigger(_) =>
        assert Written(events) == Written(earlier);
      case Complete =>
        assert Written(events) == Written(earlier);
    }
  }

  /** A run of the tasklet does not change what will have been requested in the end. */
  lemma SplitRun(s: System)
    requires s.parser.Valid()
    ensures var t := Next(s, Run);
            && t.parser.Valid()
            && Feed(s.parser, s.pending).0 == Feed(t.parser, t.pending).0
            && s.requests + Feed(s.parser, s.pending).1 == t.requests + Feed(t.parser, t.pending).1
  {
    hide Take, Feed;
    TakeIsFeed(s.parser, s.pending);
    var (q, sent, rest) := Take(s.parser, s.pending);
    assert (s.requests + sent) + Feed(q, rest).1 == s.requests + (sent + Feed(q, rest).1);
  }

  /** Equality of what is still to come is kept when more bytes arrive. */
  lemma SplitWrite(p: Parser, written: seq<Byte>, s: System, bytes: seq<Byte>)
    requires p.Valid() && s.parser.Valid()
    requires Feed(p, written) == (Feed(s.parser, s.pending).0, s.requests + Feed(s.parser, s.pending).1)
    ensures Feed(p, written + bytes) ==
            (Feed(s.parser, s.pending + bytes).0, s.requests + Feed(s.parser, s.pending + bytes).1)
  {
    FeedConcat(p, written, bytes);
    FeedConcat(s.parser, s.pending, bytes);
    var x, y := Feed(s.parser, s.pending).1, Feed(Feed(s.parser, s.pending).0, bytes).1;
    assert (s.requests + x) + y == s.requests + (x + y);
  }

  /** In every reachable state each request is one complete message behind
      tag 0, or an unescaped packet of 1 to 64 bytes with a legal tag; and once
      all bytes are read, the requests are those of the whole stream. */
  lemma RequestsSafe(p: Parser, running: bool, up: bool, events: seq<Event>)
    requires IsOpened(p)
    ensures var s := After(System(p, [], running, up, []), events);
            && (forall k :: 0 <= k < |s.requests| ==>
              || IsMessagePacket(s.requests[k])
              || (1 <= |s.requests[k]| <= MAX_PACKET_SIZE && s.requests[k][0] != TAG_CHANGE_ADDRESS))
            && (s.pending == [] ==> s.requests == Feed(p, Written(events)).1)
  {
    SplitInvariance(p, running, up, events);
    FeedSafe(p, Written(events));
    var s := After(System(p, [], running, up, []), events);
    forall k | 0 <= k < |s.requests|
      ensures s.requests[k] == Feed(p, Written(events)).1[k]
    {
    }
  }

  // ---------------------------------------------------------------------
  // One transaction at a time, and all of them
  // ---------------------------------------------------------------------

  function CountCompletes(events: seq<Event>): nat {
    if events == [] then 0
    else CountCompletes(events[..|events| - 1]) + if events[|events| - 1].Complete? then 1 else 0
  }

  /** A request is made only when the one before, of this stream or an earlier one, has
      been completed. */
  lemma {:induction false} RequestsPaced(p: Parser, running: bool, up: bool, events: seq<Event>)
    requires p.Valid()
    ensures var s := After(System(p, [], running, up, []), events);
            |s.requests| + (if running then 1 else 0) <= CountCompletes(events) + if s.running then 1 else 0
    decreases |events|
  {
    hide Take;
    if events != [] {
      var earlier := events[..|events| - 1];
      RequestsPaced(p, running, up, earlier);
      var s := After(System(p, [], running, up, []), earlier);
      OneAtMost(s.parser, s.pending);
    }
  }

  lemma {:induction false} OneAtMost(p: Parser, bytes: seq<Byte>)
    requires p.Valid()
    ensures |Take(p, bytes).1| <= 1 && |Take(p, bytes).2| <= |bytes|
    ensures bytes != [] ==> |Take(p, bytes).2| < |bytes|
    decreases |bytes|
  {
    if bytes != [] {
      ConsumeSafe(p, bytes[0]);
      if Consume(p, bytes[0]).1 == [] {
        OneAtMost(Consume(p, bytes[0]).0, bytes[1..]);
      }
    }
  }

  /** While the stream is not triggered nothing is read and nothing requested. */
  lemma {:induction false} QuietWhileDown(s: System, events: seq<Event>)
    requires s.parser.Valid() && !s.up && Trigger(true) !in events
    ensures var e := After(s, events);
            !e.up && e.parser == s.parser && e.requests == s.requests && s.pending <= e.pending
    decreases |events|
  {
    if events != [] {
      QuietWhileDown(s, events[..|events| - 1]);
    }
  }

  /** n times: the transaction is completed, and the tasklet runs. */
  function Serve(s: System, n: nat): System
    requires s.parser.Valid()
    decreases n
  {
    if n == 0 then s else
      TakeIsFeed(s.parser, s.pending);
      Serve(Next(Next(s, Complete), Run), n - 1)
  }

  /** Once triggered, a stream that is served often enough has all its bytes read and
      all packets in them requested. */
  lemma {:induction false} AllIsServed(s: System, n: nat)
    requires s.parser.Valid() && n >= |s.pending|
    ensures var e := Serve(Next(s, Trigger(true)), n); var (parser, packets) := Feed(s.parser, s.pending);
            e.pending == [] && e.parser == parser && e.requests == s.requests + packets
    decreases n
  {
    hide Take, Feed;
    var up := Next(s, Trigger(true));
    if n == 0 {
      FeedNothing(s.parser);
      assert s.requests + [] == s.requests;
    } else {
      TakeIsFeed(s.parser, s.pending);
      OneAtMost(s.parser, s.pending);
      var (q, sent, rest) := Take(s.parser, s.pending);
      var t := Next(Next(up, Complete), Run);
      assert Next(t, Trigger(true)) == t;
      assert s.pending == [] ==> rest == [];
      AllIsServed(t, n - 1);
      assert (s.requests + sent) + Feed(q, rest).1 == s.requests + (sent + Feed(q, rest).1);
    }
  }
}
