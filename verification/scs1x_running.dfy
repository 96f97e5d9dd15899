/** What the output side of sound/firewire/scs1x.c makes of a MIDI byte stream, in
    the terms of the MIDI standard: message lengths, running status and the bytes
    on the wire, written out. */
module Scs1xRunningStatus {
  import opened Scs1xCodec
  import opened Scs1xRoundTrip

  // ---------------------------------------------------------------------
  // Channel messages
  // ---------------------------------------------------------------------

  /** Data bytes behind the status of a channel message: program changes and channel
      pressure have one, all others two. */
  function DataCount(status: Byte): nat { if 0xc0 <= status < 0xe0 then 1 else 2 }

  predicate IsChannelMessage(m: seq<Byte>) {
    && m != [] && 0x80 <= m[0] < 0xf0 && |m| == 1 + DataCount(m[0])
    && forall k :: 1 <= k < |m| ==> m[k] < 0x80
  }

  /** Between messages, with `status` as the running status. */
  ghost predicate Awaits(p: Parser, status: Byte) { p.Valid() && !p.escaped && p.fill == 1 && p.status == status }

  lemma StatusClasses(status: Byte)
    requires 0x80 <= status < 0xf0
    ensures IsTwoBytesCmd(status) <==> DataCount(status) == 1
    ensures IsThreeBytesCmd(status) <==> DataCount(status) == 2
    ensures IsValidRunningStatus(status) && !IsInvalidCmd(status) && !IsOneByteCmd(status)
  {
  }

  /** The first data byte behind a running status. */
  lemma RunningByte(p: Parser, status: Byte, byte: Byte)
    requires Awaits(p, status) && 0x80 <= status < 0xf0 && byte < 0x80
    ensures var (q, sent) := Feed(p, [byte]);
            if DataCount(status) == 1 then sent == [[0x00, status, byte]] && Awaits(q, status)
            else
              && sent == [] && q.Valid() && !q.escaped && q.fill == 3 && q.status == status
              && q.buffer[..q.fill] == [0x00, status, byte]
  {
    StatusClasses(status);
    var q := Expanded(p);
    assert q.buffer[..q.fill] == [0x00, status];
    assert q.Valid();
    assert Consume(p, byte) == Consume(q, byte);
    ConsumeData(q, byte);
    assert q.buffer[..q.fill] + [byte] == [0x00, status, byte];
    FeedOne(p, byte);
  }

  /** The data bytes of one message are enough: the packet has the status in it. */
  lemma RunningMessage(p: Parser, status: Byte, data: seq<Byte>)
    requires Awaits(p, status) && IsChannelMessage([status] + data)
    ensures Feed(p, data).1 == [[0x00, status] + data] && Awaits(Feed(p, data).0, status)
  {
    hide Feed;
    var m := [status] + data;
    assert data[0] == m[1] && (|data| == 2 ==> data[1] == m[2]);
    RunningByte(p, status, data[0]);
    if |data| == 1 {
      assert data == [data[0]];
      assert [0x00, status] + data == [0x00, status, data[0]];
    } else {
      SecondByte(Feed(p, [data[0]]).0, status, data[0], data[1]);
      FeedQuietly(p, [data[0]], [data[1]]);
      assert data == [data[0]] + [data[1]];
      assert [0x00, status] + data == [0x00, status, data[0], data[1]];
    }
  }

  lemma SecondByte(q: Parser, status: Byte, first: Byte, byte: Byte)
    requires q.Valid() && !q.escaped && q.fill == 3 && q.status == status && q.buffer[..q.fill] == [0x00, status, first]
    requires 0x80 <= status < 0xf0 && DataCount(status) == 2 && byte < 0x80
    ensures Feed(q, [byte]).1 == [[0x00, status, first, byte]] && Awaits(Feed(q, [byte]).0, status)
  {
    StatusClasses(status);
    ConsumeData(q, byte);
    assert q.buffer[..q.fill] + [byte] == [0x00, status, first, byte];
    FeedOne(q, byte);
  }

  /** A status byte drops whatever was unfinished. */
  lemma ExplicitMessage(p: Parser, m: seq<Byte>)
    requires p.Valid() && IsChannelMessage(m)
    ensures Feed(p, m).1 == [[0x00] + m] && Awaits(Feed(p, m).0, m[0])
  {
    hide Feed;
    var status, data := m[..1], m[1..];
    StatusClasses(m[0]);
    FeedStatus(p, status);
    var q := Feed(p, status).0;
    FeedQuietly(p, status, data);
    assert m == status + data && data[0] == m[1] && (|data| == 2 ==> data[1] == m[2]);
    assert q.buffer[..q.fill] == [0x00, m[0]];
    AfterStatus(q, m[0], data);
    assert [0x00, m[0]] + data == [0x00] + m;
  }

  lemma AfterStatus(q: Parser, status: Byte, data: seq<Byte>)
    requires q.Valid() && !q.escaped && q.fill == 2 && q.status == status && q.buffer[..q.fill] == [0x00, status]
    requires 0x80 <= status < 0xf0 && |data| == DataCount(status) && forall k :: 0 <= k < |data| ==> data[k] < 0x80
    ensures Feed(q, data).1 == [[0x00, status] + data] && Awaits(Feed(q, data).0, status)
  {
    hide Feed;
    StatusClasses(status);
    ConsumeData(q, data[0]);
    FeedOne(q, data[0]);
    assert q.buffer[..q.fill] + [data[0]] == [0x00, status, data[0]];
    if |data| == 1 {
      assert data == [data[0]];
      assert [0x00, status] + data == [0x00, status, data[0]];
    } else {
      SecondByte(Feed(q, [data[0]]).0, status, data[0], data[1]);
      FeedQuietly(q, [data[0]], [data[1]]);
      assert data == [data[0]] + [data[1]];
      assert [0x00, status] + data == [0x00, status, data[0], data[1]];
    }
  }

  /** The bytes of a sequence of messages. Where `omit` allows it, a status byte is
      left out if it only repeats the running status. */
  function Compressed(status: Byte, messages: seq<seq<Byte>>, omit: seq<bool>): seq<Byte>
    requires |omit| == |messages| && forall k :: 0 <= k < |messages| ==> messages[k] != []
    decreases |messages|
  {
    if messages == [] then [] else
      var m := messages[0];
      (if omit[0] && m[0] == status then m[1..] else m) + Compressed(m[0], messages[1..], omit[1..])
  }

  /** Each message in a packet of its own, behind tag 0. */
  function Tagged(messages: seq<seq<Byte>>): seq<Packet> {
    seq(|messages|, k requires 0 <= k < |messages| => [0x00] + messages[k])
  }

  /** Running status: any sequence of channel messages gives the same packets, with
      all status bytes in them, whichever repeated status bytes are left out. */
  lemma {:induction false} RunningStatus(p: Parser, status: Byte, messages: seq<seq<Byte>>, omit: seq<bool>)
    requires p.Valid() && (0x80 <= status < 0xf0 ==> Awaits(p, status))
    requires |omit| == |messages|
    requires forall k :: 0 <= k < |messages| ==> messages[k] != [] && IsChannelMessage(messages[k])
    ensures Feed(p, Compressed(status, messages, omit)).1 == Tagged(messages)
    decreases |messages|
  {
    hide Awaits, Feed, IsChannelMessage;
    if messages == [] {
      FeedNothing(p);
    } else {
      var bytes := FirstMessage(p, status, messages, omit);
      var rest := Compressed(messages[0][0], messages[1..], omit[1..]);
      FeedConcat(p, bytes, rest);
      RunningStatus(Feed(p, bytes).0, messages[0][0], messages[1..], omit[1..]);
      assert Tagged(messages) == [[0x00] + messages[0]] + Tagged(messages[1..]);
    }
  }

  lemma FirstMessage(p: Parser, status: Byte, messages: seq<seq<Byte>>, omit: seq<bool>) returns (bytes: seq<Byte>)
    requires p.Valid() && (0x80 <= status < 0xf0 ==> Awaits(p, status))
    requires |omit| == |messages| > 0
    requires forall k :: 0 <= k < |messages| ==> messages[k] != [] && IsChannelMessage(messages[k])
    ensures var m := messages[0];
            && Compressed(status, messages, omit) == bytes + Compressed(m[0], messages[1..], omit[1..])
            && Feed(p, bytes).1 == [[0x00] + m] && Awaits(Feed(p, bytes).0, m[0]) && 0x80 <= m[0] < 0xf0
  {
    hide Feed;
    var m := messages[0];
    assert IsChannelMessage(m);
    if omit[0] && m[0] == status {
      bytes := m[1..];
      assert m == [status] + bytes;
      RunningMessage(p, status, bytes);
      assert [0x00, status] + bytes == [0x00] + m;
    } else {
      bytes := m;
      ExplicitMessage(p, m);
    }
  }

  // ---------------------------------------------------------------------
  // System messages
  // ---------------------------------------------------------------------

  /** Bytes of a complete message, by the two nibbles of its status; 0 for SysEx, for
      real-time messages and for undefined statuses. */
  function MessageLength(status: Byte): nat {
    match status >> 4
    case 0x8 => 3
    case 0x9 => 3
    case 0xa => 3
    case 0xb => 3
    case 0xc => 2
    case 0xd => 2
    case 0xe => 3
    case 0xf =>
      (match status & 0x0f
       case 0x1 => 2
       case 0x2 => 3
       case 0x3 => 2
       case 0x6 => 1
       case _ => 0)
    case _ => 0
  }

  lemma LengthClasses(status: Byte)
    ensures IsTwoBytesCmd(status) <==> MessageLength(status) == 2
    ensures IsThreeBytesCmd(status) <==> MessageLength(status) == 3
    ensures MessageLength(status) == 1 <==> status == 0xf6
  {
  }

  /** A message of the standard's length is sent, alone and whole, from every state. */
  lemma StandardMessage(p: Parser, m: seq<Byte>)
    requires p.Valid() && m != [] && |m| == MessageLength(m[0]) && forall k :: 1 <= k < |m| ==> m[k] < 0x80
    ensures Feed(p, m).1 == [[0x00] + m]
  {
    LengthClasses(m[0]);
    assert AllData(m[1..]);
    FeedMessage(p, m);
  }

  /** Whatever f7 ends, or does not, the parser then waits for a message. */
  lemma EndAwaits(p: Parser)
    requires p.Valid()
    ensures Awaits(Feed(p, [0xf7]).0, p.status)
  {
    FeedOne(p, 0xf7);
    ConsumeSafe(p, 0xf7);
  }

  /** Real-time messages and the undefined f4 and f5 change nothing in any state. */
  lemma OtherStatusIsIgnored(p: Parser, byte: Byte)
    requires p.Valid() && (byte >= 0xf8 || byte == 0xf4 || byte == 0xf5)
    ensures Feed(p, [byte]) == (p, [])
  {
    FeedOne(p, byte);
  }

  /** Only channel messages have a running status. */
  lemma NothingRuns(p: Parser, status: Byte, data: seq<Byte>)
    requires Awaits(p, status) && !(0x80 <= status < 0xf0) && forall k :: 0 <= k < |data| ==> data[k] < 0x80
    ensures Feed(p, data) == (p, [])
  {
    FeedIgnored(p, data);
  }

  /** A plain SysEx of up to 63 bytes is sent whole, a longer one not at all. */
  lemma SysExLimit(p: Parser, m: seq<Byte>)
    requires p.Valid() && |m| >= 2 && m[0] == 0xf0 && m[|m| - 1] == 0xf7
    requires forall k :: 1 <= k < |m| - 1 ==> m[k] < 0x80
    requires |m| >= 7 ==> m[..7] != [0xf0, 0x00, 0x01, 0x60, 0x48, 0x53, 0x53]
    ensures Feed(p, m).1 == if |m| <= 63 then [[0x00] + m] else []
  {
    FeedSysEx(p, m);
  }

  // ---------------------------------------------------------------------
  // The escape SysEx
  // ---------------------------------------------------------------------

  /** The maker's prefix, each byte as its high and its low nibble, and the end. */
  predicate IsEscape(bytes: seq<Byte>, data: seq<Byte>) {
    && |bytes| == 8 + 2 * |data|
    && bytes[..7] == [0xf0, 0x00, 0x01, 0x60, 0x48, 0x53, 0x53] && bytes[|bytes| - 1] == 0xf7
    && forall i :: 0 <= i < |data| ==> bytes[7 + 2 * i] == data[i] >> 4 && bytes[8 + 2 * i] == data[i] & 0x0f
  }

  lemma {:induction false} NibblesAt(data: seq<Byte>, i: nat)
    requires i < |data|
    ensures Nibbles(data)[2 * i] == data[i] >> 4 && Nibbles(data)[2 * i + 1] == data[i] & 0x0f
    decreases |data|
  {
    if i > 0 {
      NibblesAt(data[1..], i - 1);
    }
  }

  lemma EscapeIs(bytes: seq<Byte>, data: seq<Byte>)
    ensures IsEscape(bytes, data) <==> bytes == ESCAPE_PREFIX + Nibbles(data) + [0xf7]
  {
    hide Nibbles;
    var all := ESCAPE_PREFIX + Nibbles(data) + [0xf7];
    forall i | 0 <= i < |data|
      ensures all[7 + 2 * i] == data[i] >> 4 && all[8 + 2 * i] == data[i] & 0x0f
    {
      NibblesAt(data, i);
    }
    assert IsEscape(all, data);
    if IsEscape(bytes, data) {
      SameEscape(bytes, all, data);
    }
  }

  lemma SameEscape(a: seq<Byte>, b: seq<Byte>, data: seq<Byte>)
    requires IsEscape(a, data) && IsEscape(b, data)
    ensures a == b
  {
    forall k | 0 <= k < |a| ensures a[k] == b[k] {
      if k < 7 {
        assert a[..7][k] == b[..7][k];
      } else if k < |a| - 1 {
        var i := (k - 7) / 2;
        assert a[7 + 2 * i] == data[i] >> 4 && (k == 7 + 2 * i || k == 8 + 2 * i);
      }
    }
  }

  /** A packet with another tag than 0 is received as an escape SysEx ... */
  lemma EscapeReceived(count: nat, packet: Packet)
    requires packet != [] && packet[0] != 0x00
    ensures ExpandPacket(count, packet).0 == count && IsEscape(ExpandPacket(count, packet).1, packet)
  {
    EscapeIs(ExpandPacket(count, packet).1, packet);
  }

  /** ... and so is f9 with three more bytes in a packet with tag 0, tag and all,
      while other bytes are received as they are. */
  lemma GroupReceived(a: Byte, b: Byte, c: Byte, plain: seq<Byte>, rest: seq<Byte>) returns (bytes: seq<Byte>)
    requires 0xf9 !in plain
    ensures IsEscape(bytes, [0x00, 0xf9, a, b, c])
    ensures ExpandPacket(0, [0x00] + (plain + ([0xf9, a, b, c] + rest))) ==
            (ExpandMidi(0, rest).0, plain + bytes + ExpandMidi(0, rest).1)
  {
    hide ExpandMidi, Nibbles;
    var group := [0xf9, a, b, c] + rest;
    bytes := ESCAPE_PREFIX + Nibbles([0x00, 0xf9, a, b, c]) + [0xf7];
    EscapeIs(bytes, [0x00, 0xf9, a, b, c]);
    ExpandF9(a, b, c, rest);
    ExpandPlainHead(plain, group);
    ExpandPlainCount(plain, group);
    assert ([0x00] + (plain + group))[1..] == plain + group;
    assert plain + (bytes + ExpandMidi(0, rest).1) == plain + bytes + ExpandMidi(0, rest).1;
  }

  lemma {:induction false} ExpandPlainCount(a: seq<Byte>, rest: seq<Byte>)
    requires 0xf9 !in a
    ensures ExpandMidi(0, a + rest).0 == ExpandMidi(0, rest).0
    decreases |a|
  {
    if a == [] {
      assert a + rest == rest;
    } else {
      ExpandPlainCount(a[1..], rest);
      assert (a + rest)[1..] == a[1..] + rest;
    }
  }

  /** An escape SysEx is sent as the bytes in it, up to 64 of them, unless there is
      none or the first one is the tag f1. */
  lemma EscapeSent(p: Parser, bytes: seq<Byte>, data: seq<Byte>)
    requires p.Valid() && IsEscape(bytes, data)
    ensures Feed(p, bytes).1 == if data == [] || data[0] == 0xf1 then []
                                else [if |data| <= 64 then data else data[..64]]
  {
    EscapeIs(bytes, data);
    FeedEscapeSysEx(p, data);
    hide Feed, Nibbles;
  }
}
