/** What survives a trip from HSS1394 packets to MIDI bytes and back. */
module Scs1xRoundTrip {
  import opened Scs1xCodec

  // ---------------------------------------------------------------------
  // Plain messages
  // ---------------------------------------------------------------------

  lemma {:induction false} FeedIgnored(p: Parser, data: seq<Byte>)
    requires p.Valid() && !p.escaped && p.fill == 1 && !IsValidRunningStatus(p.status) && AllData(data)
    ensures Feed(p, data) == (p, [])
    decreases |data|
  {
    if data != [] {
      assert Consume(p, data[0]) == (p, []);
      FeedIgnored(p, data[1..]);
      assert Consume(p, data[0]).1 + Feed(p, data[1..]).1 == [];
    }
  }

  lemma FeedEnd(p: Parser, end: seq<Byte>)
    requires p.Valid() && !p.escaped && |end| == 1 && end[0] == 0xf7
    ensures Feed(p, end).1 == if p.fill > 1 && p.status == 0xf0 then [p.buffer[..p.fill] + end] else []
  {
    FeedOne(p, end[0]);
    assert end == [end[0]];
  }

  lemma FeedLongData(q: Parser, data: seq<Byte>)
    requires q.Valid() && !q.escaped && q.status == 0xf0 && q.fill == 2 && AllData(data)
    requires q.buffer[1..q.fill] == [0xf0] && !(ESCAPE_PREFIX <= [0xf0] + data) && |data| > 61
    ensures var (r, sent) := Feed(q, data); sent == [] && !r.escaped && r.fill == 1 && r.status == 0xf0
  {
    var head, next, tail := data[..61], data[61], data[62..];
    assert data == head + ([next] + tail);
    assert ([0xf0] + data)[..62] == [0xf0] + head;
    FeedData(q, head);
    var r := Feed(q, head).0;
    assert (r.buffer[..r.fill] + [next])[1..] != ESCAPE_PREFIX;
    ConsumeData(r, next);
    FeedOne(r, next);
    var t := Feed(r, [next]).0;
    FeedIgnored(t, tail);
    FeedQuietly(r, [next], tail);
    FeedQuietly(q, head, [next] + tail);
  }

  lemma FeedSysExBody(p: Parser, status: seq<Byte>, data: seq<Byte>)
    requires p.Valid() && AllData(data) && !(ESCAPE_PREFIX <= status + data)
    requires |status| == 1 && status[0] == 0xf0
    ensures var (q, sent) := Feed(p, status + data);
            && sent == [] && !q.escaped && q.status == 0xf0
            && if |data| <= 61 then q.fill == 2 + |data| && q.buffer[..q.fill] == [TAG_USER_DATA] + status + data
               else q.fill == 1
  {
    FeedStatus(p, status);
    var q := Feed(p, status).0;
    FeedQuietly(p, status, data);
    if |data| <= 61 {
      FeedData(q, data);
    } else {
      assert status == [0xf0];
      FeedLongData(q, data);
    }
  }

  lemma FeedSysExEnd(p: Parser, b: seq<Byte>, end: seq<Byte>)
    requires p.Valid() && |end| == 1 && end[0] == 0xf7
    requires var (q, sent) := Feed(p, b);
             sent == [] && !q.escaped && q.status == 0xf0 && (q.fill == 1 || q.buffer[..q.fill] == [TAG_USER_DATA] + b)
    ensures Feed(p, b + end).1 == if Feed(p, b).0.fill > 1 then [[TAG_USER_DATA] + (b + end)] else []
  {
    FeedQuietly(p, b, end);
    FeedEnd(Feed(p, b).0, end);
    assert [TAG_USER_DATA] + b + end == [TAG_USER_DATA] + (b + end);
  }

  /** A plain SysEx is sent whole, or dropped whole if it does not fit. */
  lemma FeedSysEx(p: Parser, m: seq<Byte>)
    requires p.Valid() && |m| >= 2 && m[0] == 0xf0 && m[|m| - 1] == 0xf7
    requires AllData(m[1..|m| - 1]) && !(ESCAPE_PREFIX <= m)
    ensures Feed(p, m).1 == if 1 + |m| <= MAX_PACKET_SIZE then [[TAG_USER_DATA] + m] else []
  {
    hide Consume;
    var status, data, end := m[..1], m[1..|m| - 1], m[|m| - 1..];
    assert status + data == m[..|m| - 1] && m == status + data + end;
    FeedSysExBody(p, status, data);
    assert [TAG_USER_DATA] + status + data == [TAG_USER_DATA] + (status + data);
    FeedSysExEnd(p, status + data, end);
  }

  lemma FeedTwoBytes(p: Parser, status: seq<Byte>, data: seq<Byte>)
    requires p.Valid() && |status| == |data| == 1 && IsTwoBytesCmd(status[0]) && AllData(data)
    ensures Feed(p, status + data).1 == [[TAG_USER_DATA] + (status + data)]
  {
    FeedStatus(p, status);
    FeedQuietly(p, status, data);
    var q := Feed(p, status).0;
    ConsumeData(q, data[0]);
    FeedOne(q, data[0]);
    assert data == [data[0]];
    assert q.buffer[..q.fill] + data == [TAG_USER_DATA] + (status + data);
  }

  lemma FeedThreeBytes(p: Parser, status: seq<Byte>, a: Byte, b: Byte)
    requires p.Valid() && |status| == 1 && IsThreeBytesCmd(status[0]) && a < 0x80 && b < 0x80
    ensures Feed(p, status + ([a] + [b])).1 == [[TAG_USER_DATA] + (status + ([a] + [b]))]
  {
    FeedStatus(p, status);
    FeedQuietly(p, status, [a] + [b]);
    var q := Feed(p, status).0;
    FeedTwoData(q, a, b);
    assert q.buffer[..q.fill] + [a] + [b] == [TAG_USER_DATA] + (status + ([a] + [b]));
  }

  lemma FeedTwoData(q: Parser, a: Byte, b: Byte)
    requires q.Valid() && !q.escaped && q.fill == 2 && IsThreeBytesCmd(q.status) && a < 0x80 && b < 0x80
    ensures Feed(q, [a] + [b]).1 == [q.buffer[..q.fill] + [a] + [b]]
  {
    ConsumeData(q, a);
    ConsumeData(Consume(q, a).0, b);
    FeedTwo(q, a, b);
  }

  lemma FeedShort(p: Parser, m: seq<Byte>)
    requires p.Valid() && IsMessage(m) && m[0] != 0xf0
    ensures Feed(p, m).1 == [[TAG_USER_DATA] + m]
  {
    if |m| == 1 {
      FeedOne(p, m[0]);
      assert m == [m[0]];
      assert p.buffer[0 := TAG_USER_DATA][1 := m[0]][..2] == [TAG_USER_DATA] + m;
    } else if |m| == 2 {
      assert m == m[..1] + m[1..];
      FeedTwoBytes(p, m[..1], m[1..]);
    } else {
      assert m == m[..1] + ([m[1]] + [m[2]]);
      assert m[1..][0] == m[1] && m[1..][1] == m[2];
      FeedThreeBytes(p, m[..1], m[1], m[2]);
    }
  }

  /** A complete message is sent as it is, whatever state the parser was in. */
  lemma FeedMessage(p: Parser, m: seq<Byte>)
    requires p.Valid() && IsMessage(m)
    ensures Feed(p, m).1 == [[TAG_USER_DATA] + m]
  {
    if m[0] == 0xf0 {
      FeedSysEx(p, m);
    } else {
      FeedShort(p, m);
    }
  }

  // ---------------------------------------------------------------------
  // Packets
  // ---------------------------------------------------------------------

  /** The second part is implied and makes ExpandAll applicable. */
  predicate AllDeliverable(packets: seq<Packet>) {
    forall k :: 0 <= k < |packets| ==> IsDeliverable(packets[k]) && |packets[k]| >= 1
  }

  lemma MessageHasNoF9(m: seq<Byte>)
    requires IsMessage(m)
    ensures 0xf9 !in m
  {
    forall k | 0 <= k < |m|
      ensures m[k] != 0xf9
    {
      assert k > 0 && m[0] != 0xf0 ==> m[1..][k - 1] == m[k];
      assert 0 < k < |m| - 1 && m[0] == 0xf0 ==> m[1..|m| - 1][k - 1] == m[k];
    }
  }

  /** A deliverable packet comes back alone and unchanged, from every state of
      the parser, and leaves no half-read escape on the input side. */
  lemma DeliverableRoundTrip(p: Parser, packet: Packet)
    requires p.Valid() && IsDeliverable(packet)
    ensures ExpandPacket(0, packet).0 == 0
    ensures Feed(p, ExpandPacket(0, packet).1).1 == [packet]
  {
    var m := packet[1..];
    if packet[0] != TAG_USER_DATA {
      FeedEscapeSysEx(p, packet);
    } else if IsMessage(m) {
      MessageHasNoF9(m);
      ExpandPlain(m);
      FeedMessage(p, m);
      assert [TAG_USER_DATA] + m == packet;
    } else {
      ExpandF9(m[1], m[2], m[3], []);
      assert m == [0xf9, m[1], m[2], m[3]] + [];
      assert packet == [0x00, 0xf9, m[1], m[2], m[3]];
      var bytes := ESCAPE_PREFIX + Nibbles(packet) + [0xf7];
      assert bytes + [] == bytes;
      FeedEscapeSysEx(p, packet);
    }
  }

  /** The bytes received for a sequence of packets. */
  function ExpandAll(count: nat, packets: seq<Packet>): seq<Byte>
    requires forall k :: 0 <= k < |packets| ==> |packets[k]| >= 1
    decreases |packets|
  {
    if packets == [] then [] else
      var (next, bytes) := ExpandPacket(count, packets[0]);
      bytes + ExpandAll(next, packets[1..])
  }

  /** The two directions undo each other on every sequence of deliverable
      packets. */
  lemma {:induction false} RoundTrip(p: Parser, packets: seq<Packet>)
    requires p.Valid() && AllDeliverable(packets)
    ensures Feed(p, ExpandAll(0, packets)).1 == packets
    decreases |packets|
  {
    if packets != [] {
      DeliverableRoundTrip(p, packets[0]);
      var bytes := ExpandPacket(0, packets[0]).1;
      var rest := ExpandAll(0, packets[1..]);
      FeedConcat(p, bytes, rest);
      RoundTrip(Feed(p, bytes).0, packets[1..]);
      assert [packets[0]] + packets[1..] == packets;
    }
  }

  // ---------------------------------------------------------------------
  // Nothing else survives
  // ---------------------------------------------------------------------

  lemma {:induction false} ExpandPlainHead(a: seq<Byte>, rest: seq<Byte>)
    requires 0xf9 !in a
    ensures ExpandMidi(0, a + rest).1 == a + ExpandMidi(0, rest).1
    decreases |a|
  {
    if a == [] {
      assert a + rest == rest;
    } else {
      ExpandPlainHead(a[1..], rest);
      assert (a + rest)[1..] == a[1..] + rest;
      var x := ExpandMidi(0, rest).1;
      assert [a[0]] + (a[1..] + x) == a + x;
    }
  }

  /** f9 with fewer than three bytes behind it leaves the escape open. */
  lemma ExpandShortF9(rest: seq<Byte>)
    requires 1 <= |rest| <= 3 && rest[0] == 0xf9
    ensures ExpandMidi(0, rest).1 == ESCAPE_PREFIX + Nibbles([0x00] + rest)
  {
    hide Nibbles;
    var x := rest[1..];
    assert rest == [rest[0]] + x;
    NibblesCons(0x00, rest);
    NibblesCons(rest[0], x);
    ExpandEscaped(3, x);
  }

  lemma {:induction false} ExpandEscaped(count: nat, x: seq<Byte>)
    requires count > |x|
    ensures ExpandMidi(count, x).1 == Nibbles(x)
    decreases |x|
  {
    if x != [] {
      ExpandEscaped(count - 1, x[1..]);
      assert x == [x[0]] + x[1..];
      NibblesCons(x[0], x[1..]);
    }
  }

  lemma FeedOpenEscape(p: Parser, data: seq<Byte>)
    requires p.Valid()
    ensures Feed(p, ESCAPE_PREFIX + Nibbles(data)).1 == []
  {
    FeedPrefix(p);
    FeedQuietly(p, ESCAPE_PREFIX, Nibbles(data));
    FeedNibbles(Feed(p, ESCAPE_PREFIX).0, data);
  }

  /** A packet as long as all bytes fed so far is not an unescaped one. */
  lemma SentIsMessage(p: Parser, bytes: seq<Byte>, packet: Packet)
    requires p.Valid() && p.fill == 1 && !p.escaped
    requires packet in Feed(p, bytes).1 && |bytes| < |packet|
    ensures IsMessagePacket(packet)
  {
    FeedSafe(p, bytes);
  }

  lemma FeedF9(q: Parser, rest: seq<Byte>)
    requires q.Valid() && |rest| >= 4 && rest[0] == 0xf9
    ensures [0x00, 0xf9, rest[1], rest[2], rest[3]] in Feed(q, ExpandMidi(0, rest).1).1
  {
    var escaped := [0x00, 0xf9, rest[1], rest[2], rest[3]];
    assert rest == [0xf9, rest[1], rest[2], rest[3]] + rest[4..];
    ExpandF9(rest[1], rest[2], rest[3], rest[4..]);
    FeedEscapeFirst(q, escaped, ExpandMidi(0, rest[4..]).1);
  }

  lemma FeedEscapeFirst(q: Parser, data: seq<Byte>, tail: seq<Byte>)
    requires q.Valid() && 1 <= |data| <= MAX_PACKET_SIZE && data[0] != TAG_CHANGE_ADDRESS
    ensures data in Feed(q, ESCAPE_PREFIX + Nibbles(data) + [0xf7] + tail).1
  {
    var bytes := ESCAPE_PREFIX + Nibbles(data) + [0xf7];
    FeedEscapeSysEx(q, data);
    FeedConcat(q, bytes, tail);
  }

  /** A complete f9 group is sent on its own, so it must be the whole packet. */
  lemma ReturnedWithF9(p: Parser, a: seq<Byte>, rest: seq<Byte>, packet: Packet)
    requires p.Valid() && |rest| >= 4 && rest[0] == 0xf9
    requires Feed(p, a + ExpandMidi(0, rest).1).1 == [packet]
    ensures packet == [0x00, 0xf9, rest[1], rest[2], rest[3]]
  {
    FeedConcat(p, a, ExpandMidi(0, rest).1);
    FeedF9(Feed(p, a).0, rest);
    assert [0x00, 0xf9, rest[1], rest[2], rest[3]] in [packet];
  }

  lemma ReturnedWithOpenF9(p: Parser, a: seq<Byte>, rest: seq<Byte>, packet: Packet)
    requires p.Valid() && 1 <= |rest| <= 3 && rest[0] == 0xf9
    requires Feed(p, a + ExpandMidi(0, rest).1).1 == [packet]
    ensures Feed(p, a).1 == [packet]
  {
    FeedConcat(p, a, ExpandMidi(0, rest).1);
    ExpandShortF9(rest);
    FeedOpenEscape(Feed(p, a).0, [0x00] + rest);
    assert Feed(p, a).1 + [] == Feed(p, a).1;
  }

  lemma ReturnedIsDeliverable(p: Parser, packet: Packet)
    requires p.Valid() && p.fill == 1 && !p.escaped
    requires 1 <= |packet| <= MAX_PACKET_SIZE && packet[0] == TAG_USER_DATA
    requires Feed(p, ExpandPacket(0, packet).1).1 == [packet]
    ensures IsDeliverable(packet)
  {
    var m := packet[1..];
    if 0xf9 !in m {
      ExpandPlain(m);
      SentIsMessage(p, m, packet);
    } else {
      var a, rest := SplitAtF9(m);
      ExpandPlainHead(a, rest);
      if |rest| >= 4 {
        ReturnedWithF9(p, a, rest, packet);
      } else {
        ReturnedWithOpenF9(p, a, rest, packet);
        SentIsMessage(p, a, packet);
      }
    }
  }

  lemma SplitAtF9(m: seq<Byte>) returns (a: seq<Byte>, rest: seq<Byte>)
    requires 0xf9 in m
    ensures m == a + rest && 0xf9 !in a && |rest| >= 1 && rest[0] == 0xf9
  {
    var j := 0;
    while m[j] != 0xf9
      invariant j < |m| && 0xf9 !in m[..j] && 0xf9 in m[j..]
      decreases |m| - j
    {
      j := j + 1;
    }
    a, rest := m[..j], m[j..];
  }

  /** Exactly the deliverable packets come back unchanged. Those lost include
      every real-time message (f8 and above) and every change of address. */
  lemma RoundTripIff(p: Parser, packet: Packet)
    requires p.Valid() && p.fill == 1 && !p.escaped && 1 <= |packet| <= MAX_PACKET_SIZE
    ensures Feed(p, ExpandPacket(0, packet).1).1 == [packet] <==> IsDeliverable(packet)
  {
    if IsDeliverable(packet) {
      DeliverableRoundTrip(p, packet);
    } else if packet[0] != TAG_USER_DATA {
      FeedEscapeSysEx(p, packet);
    } else if Feed(p, ExpandPacket(0, packet).1).1 == [packet] {
      ReturnedIsDeliverable(p, packet);
    }
  }

  /** A real-time message does not make it through the output side. */
  lemma RealTimeIsLost(p: Parser, byte: Byte)
    requires p.Valid() && p.fill == 1 && !p.escaped && byte >= 0xf8 && byte != 0xf9
    ensures Feed(p, ExpandPacket(0, [TAG_USER_DATA, byte]).1) == (p, [])
  {
    ExpandPlain([byte]);
    assert [TAG_USER_DATA, byte][1..] == [byte];
    FeedOne(p, byte);
  }
}
