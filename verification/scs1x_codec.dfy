/** The SCS.1x MIDI transcoder of sound/firewire/scs1x.c on values.
    Input turns HSS1394 packets into a MIDI byte stream, wrapping what is not
    plain MIDI into nibbles of an escape SysEx; output parses a MIDI byte
    stream back into packets. */
module Scs1xCodec {
  type Byte = bv8
  type Packet = seq<Byte>

  const MAX_PACKET_SIZE := 64
  const TAG_USER_DATA: Byte := 0x00
  const TAG_CHANGE_ADDRESS: Byte := 0xf1
  const ESCAPE_PREFIX: seq<Byte> := [0xf0, 0x00, 0x01, 0x60, 0x48, 0x53, 0x53]

  predicate IsValidRunningStatus(status: Byte) { 0x80 <= status <= 0xef }

  predicate IsOneByteCmd(status: Byte) { status == 0xf6 || status >= 0xf8 }

  predicate IsTwoBytesCmd(status: Byte) {
    0xc0 <= status <= 0xdf || status == 0xf1 || status == 0xf3
  }

  predicate IsThreeBytesCmd(status: Byte) {
    0x80 <= status <= 0xbf || 0xe0 <= status <= 0xef || status == 0xf2
  }

  predicate IsInvalidCmd(status: Byte) {
    status == 0xf4 || status == 0xf5 || status == 0xf9 || status == 0xfd
  }

  predicate AllData(s: seq<Byte>) { forall k :: 0 <= k < |s| ==> s[k] < 0x80 }

  // ---------------------------------------------------------------------
  // Output: MIDI bytes to packets
  // ---------------------------------------------------------------------

  /** The parser: buffer[], output_bytes, output_status, output_escaped and
      output_escape_high_nibble. */
  datatype Parser = Parser(buffer: seq<Byte>, fill: nat, status: Byte, escaped: bool, high: bool) {
    /** What every reachable state satisfies; in particular no store goes past
        the end of the buffer. */
    ghost predicate Valid() {
      && |buffer| == MAX_PACKET_SIZE && fill <= MAX_PACKET_SIZE
      && (escaped ==> high || fill < MAX_PACKET_SIZE)
      && (!escaped ==> 1 <= fill < MAX_PACKET_SIZE)
      && (!escaped && fill >= 2 ==> IsPartialMessage(buffer[..fill], status))
    }
  }

  /** What has been collected of a plain message: tag, status, data bytes. */
  predicate IsPartialMessage(b: seq<Byte>, status: Byte) {
    && |b| >= 2 && b[0] == TAG_USER_DATA && b[1] == status && AllData(b[2..])
    && (|b| == 2 || !IsTwoBytesCmd(status))
    && (|b| <= 3 || !IsThreeBytesCmd(status))
    && (IsTwoBytesCmd(status) || IsThreeBytesCmd(status) || status == 0xf0)
    && !(ESCAPE_PREFIX <= b[1..])
  }

  /** scs_output_open; the buffer is not initialized. */
  ghost predicate IsOpened(p: Parser) {
    p.Valid() && p.status == 0 && p.fill == 1 && !p.escaped
  }

  function Send(p: Parser, packet: Packet): (Parser, seq<Packet>) {
    (p.(fill := 1, escaped := false), [packet])
  }

  /** One round of the loop in scs_output_tasklet: the new state and the packet
      sent, if any. */
  function Consume(p: Parser, byte: Byte): (Parser, seq<Packet>)
    requires p.Valid()
  {
    if p.escaped && byte < 0x80 then
      if p.high then
        (if p.fill < MAX_PACKET_SIZE then p.(buffer := p.buffer[p.fill := byte << 4], high := false) else p, [])
      else
        (p.(buffer := p.buffer[p.fill := p.buffer[p.fill] | (byte & 0x0f)], fill := p.fill + 1, high := true), [])
    else if byte < 0x80 then
      if p.fill == 1 && !IsValidRunningStatus(p.status) then
        (p, [])
      else
        var q := Expanded(p);
        CollectData(q.(buffer := q.buffer[q.fill := byte], fill := q.fill + 1))
    else if byte == 0xf7 then
      if p.escaped then
        if p.fill >= 1 && p.high && p.buffer[0] != TAG_CHANGE_ADDRESS
        then Send(p, p.buffer[..p.fill])
        else (p.(fill := 1, escaped := false), [])
      else
        if p.fill > 1 && p.status == 0xf0
        then Send(p.(buffer := p.buffer[p.fill := 0xf7]), p.buffer[..p.fill] + [0xf7])
        else (p.(fill := 1, escaped := false), [])
    else if !IsInvalidCmd(byte) && byte < 0xf8 then
      var q := p.(buffer := p.buffer[0 := TAG_USER_DATA][1 := byte], fill := 2, status := byte, escaped := false);
      if IsOneByteCmd(byte) then Send(q, q.buffer[..2]) else (q, [])
    else
      (p, [])
  }

  /** The checks after a plain data byte has been stored. */
  function CollectData(q: Parser): (Parser, seq<Packet>)
    requires |q.buffer| == MAX_PACKET_SIZE && 1 <= q.fill <= MAX_PACKET_SIZE
  {
    if (q.fill == 3 && IsTwoBytesCmd(q.status)) || (q.fill == 4 && IsThreeBytesCmd(q.status)) then
      Send(q, q.buffer[..q.fill])
    else if q.fill == 1 + |ESCAPE_PREFIX| && q.buffer[1..1 + |ESCAPE_PREFIX|] == ESCAPE_PREFIX then
      (q.(fill := 0, escaped := true, high := true), [])
    else if q.fill >= MAX_PACKET_SIZE then
      (q.(fill := 1), [])
    else
      (q, [])
  }

  /** A complete message as the device takes it: explicit status, one command,
      at most 63 bytes, and no SysEx that starts like the escape SysEx. */
  predicate IsMessage(m: seq<Byte>) {
    || (|m| == 1 && m[0] == 0xf6)
    || (|m| == 2 && IsTwoBytesCmd(m[0]) && AllData(m[1..]))
    || (|m| == 3 && IsThreeBytesCmd(m[0]) && AllData(m[1..]))
    || (2 <= |m| < MAX_PACKET_SIZE && m[0] == 0xf0 && m[|m| - 1] == 0xf7 && AllData(m[1..|m| - 1])
        && !(ESCAPE_PREFIX <= m))
  }

  predicate IsMessagePacket(packet: Packet) {
    |packet| > 0 && packet[0] == TAG_USER_DATA && IsMessage(packet[1..])
  }

  /** Bytes consumed, at least, since the SysEx being parsed began. */
  function Spent(p: Parser): nat {
    if p.escaped then 7 + 2 * p.fill + (if p.high then 0 else 1)
    else if p.fill >= 2 && p.status == 0xf0 then p.fill - 1
    else 0
  }

  /** What a step may send, given the bytes spent on it. */
  ghost predicate IsSendable(packet: Packet, spent: nat) {
    || IsMessagePacket(packet)
    || (1 <= |packet| <= MAX_PACKET_SIZE && packet[0] != TAG_CHANGE_ADDRESS && 2 * |packet| + 8 <= spent)
  }

  /** The parser before a plain data byte is stored, running status expanded. */
  function Expanded(p: Parser): Parser
    requires |p.buffer| == MAX_PACKET_SIZE
  {
    if p.fill == 1 then p.(buffer := p.buffer[0 := TAG_USER_DATA][1 := p.status], fill := 2) else p
  }

  lemma OneMore(b: seq<Byte>, byte: Byte)
    requires |b| >= 2 && AllData(b[2..]) && byte < 0x80
    ensures (b + [byte])[1..] == b[1..] + [byte] && b[1..] <= (b + [byte])[1..] && AllData((b + [byte])[2..])
  {
  }

  lemma CollectDataSafe(p: Parser, byte: Byte)
    requires p.Valid() && !p.escaped && p.fill >= 2 && byte < 0x80
    ensures var (q, sent) := CollectData(p.(buffer := p.buffer[p.fill := byte], fill := p.fill + 1));
            && q.Valid() && Spent(q) <= Spent(p) + 1
            && (sent == []
                || (sent == [p.buffer[..p.fill] + [byte]] && IsMessagePacket(sent[0]) && q.fill == 1 && !q.escaped))
  {
    var b := p.buffer[..p.fill];
    var r := p.(buffer := p.buffer[p.fill := byte], fill := p.fill + 1);
    var c := r.buffer[..r.fill];
    assert c == b + [byte];
    OneMore(b, byte);
    if r.fill == 1 + |ESCAPE_PREFIX| {
      assert r.buffer[1..1 + |ESCAPE_PREFIX|] == c[1..];
    }
    assert c[1..][..|b| - 1] == b[1..] && !(ESCAPE_PREFIX <= b[1..]);
  }

  lemma EndOfSysExSafe(p: Parser)
    requires p.Valid() && !p.escaped && p.fill > 1 && p.status == 0xf0
    ensures IsMessagePacket(p.buffer[..p.fill] + [0xf7])
  {
    var b := p.buffer[..p.fill];
    var m := (b + [0xf7])[1..];
    assert m == b[1..] + [0xf7];
    assert m[1..|m| - 1] == b[2..];
    assert ESCAPE_PREFIX <= m ==> ESCAPE_PREFIX <= b[1..] by {
      assert m[|m| - 1] != ESCAPE_PREFIX[6];
    }
  }

  /** Every step keeps the state valid. What it sends is either one complete
      message behind tag 0, or an unescaped packet of 1 to 64 bytes whose
      nibbles and framing have all been consumed. */
  lemma ConsumeSafe(p: Parser, byte: Byte)
    requires p.Valid()
    ensures var (q, sent) := Consume(p, byte);
            && q.Valid() && Spent(q) <= Spent(p) + 1
            && (sent == [] || (|sent| == 1 && q.fill == 1 && !q.escaped && IsSendable(sent[0], Spent(p) + 1)))
  {
    hide Consume;
    if byte < 0x80 {
      DataByteSafe(p, byte);
    } else {
      StatusByteSafe(p, byte);
    }
  }

  lemma DataByteSafe(p: Parser, byte: Byte)
    requires p.Valid() && byte < 0x80
    ensures var (q, sent) := Consume(p, byte);
            && q.Valid() && Spent(q) <= Spent(p) + 1
            && (sent == [] || (|sent| == 1 && q.fill == 1 && !q.escaped && IsSendable(sent[0], Spent(p) + 1)))
  {
    hide CollectData;
    if !p.escaped && (p.fill > 1 || IsValidRunningStatus(p.status)) {
      var q := Expanded(p);
      assert q.buffer[..q.fill][2..] == if p.fill == 1 then [] else p.buffer[..p.fill][2..];
      CollectDataSafe(q, byte);
    }
  }

  lemma StatusByteSafe(p: Parser, byte: Byte)
    requires p.Valid() && byte >= 0x80
    ensures var (q, sent) := Consume(p, byte);
            && q.Valid() && Spent(q) <= Spent(p) + 1
            && (sent == [] || (|sent| == 1 && q.fill == 1 && !q.escaped && IsSendable(sent[0], Spent(p) + 1)))
  {
    if byte == 0xf7 {
      if !p.escaped && p.fill > 1 && p.status == 0xf0 {
        EndOfSysExSafe(p);
      }
    } else if !IsInvalidCmd(byte) && byte < 0xf8 {
      assert p.buffer[0 := TAG_USER_DATA][1 := byte][..2] == [TAG_USER_DATA, byte];
    }
  }

  /** The parser run over a byte stream: final state and packets, in order. */
  function Feed(p: Parser, bytes: seq<Byte>): (r: (Parser, seq<Packet>))
    requires p.Valid()
    ensures r.0.Valid()
    decreases |bytes|
  {
    if bytes == [] then (p, []) else
      var (q, sent) := Consume(p, bytes[0]);
      ConsumeSafe(p, bytes[0]);
      var (q', rest) := Feed(q, bytes[1..]);
      (q', sent + rest)
  }

  lemma FeedCons(p: Parser, byte: Byte, rest: seq<Byte>)
    requires p.Valid()
    ensures var (q, sent) := Consume(p, byte);
            q.Valid() && Feed(p, [byte] + rest) == (Feed(q, rest).0, sent + Feed(q, rest).1)
  {
    ConsumeSafe(p, byte);
    assert ([byte] + rest)[1..] == rest;
  }

  /** The parser after one byte, before either of two continuations. */
  lemma FeedConsBoth(p: Parser, byte: Byte, rest: seq<Byte>, other: seq<Byte>) returns (q: Parser, sent: seq<Packet>)
    requires p.Valid()
    ensures q.Valid()
    ensures Feed(p, [byte] + rest) == (Feed(q, rest).0, sent + Feed(q, rest).1)
    ensures Feed(p, [byte] + other) == (Feed(q, other).0, sent + Feed(q, other).1)
  {
    FeedCons(p, byte, rest);
    FeedCons(p, byte, other);
    q, sent := Consume(p, byte).0, Consume(p, byte).1;
  }

  lemma FeedNothing(p: Parser)
    requires p.Valid()
    ensures Feed(p, []) == (p, [])
  {
  }

  lemma {:induction false} FeedConcat(p: Parser, a: seq<Byte>, b: seq<Byte>)
    requires p.Valid()
    ensures Feed(p, a + b) ==
            (Feed(Feed(p, a).0, b).0, Feed(p, a).1 + Feed(Feed(p, a).0, b).1)
    decreases |a|
  {
    hide Feed;
    if a == [] {
      FeedNothing(p);
      assert a + b == b;
      assert [] + Feed(p, b).1 == Feed(p, b).1;
    } else {
      var q, sent := FeedConsBoth(p, a[0], a[1..], a[1..] + b);
      assert [a[0]] + a[1..] == a && [a[0]] + (a[1..] + b) == a + b;
      FeedConcat(q, a[1..], b);
      var x, y := Feed(q, a[1..]).1, Feed(Feed(q, a[1..]).0, b).1;
      assert sent + (x + y) == (sent + x) + y;
    }
  }

  /** Everything sent is sendable: one complete message with explicit status,
      or an unescaped packet of at most 64 bytes and at most half the bytes fed. */
  lemma {:induction false} FeedSafe(p: Parser, bytes: seq<Byte>)
    requires p.Valid()
    ensures forall k :: 0 <= k < |Feed(p, bytes).1| ==> IsSendable(Feed(p, bytes).1[k], Spent(p) + |bytes|)
    decreases |bytes|
  {
    if bytes != [] {
      ConsumeSafe(p, bytes[0]);
      FeedSafe(Consume(p, bytes[0]).0, bytes[1..]);
    }
  }

  // ---------------------------------------------------------------------
  // Input: packets to MIDI bytes
  // ---------------------------------------------------------------------

  /** scs_input_escaped_byte over a run of bytes. */
  function Nibbles(data: seq<Byte>): (r: seq<Byte>)
    ensures |r| == 2 * |data|
  {
    if data == [] then [] else [data[0] >> 4, data[0] & 0x0f] + Nibbles(data[1..])
  }

  /** scs_input_midi_byte over a run of bytes, from a given input_escape_count. */
  function ExpandMidi(count: nat, data: seq<Byte>): (nat, seq<Byte>)
    decreases |data|
  {
    if data == [] then (count, [])
    else if count > 0 then
      var (last, rest) := ExpandMidi(count - 1, data[1..]);
      (last, Nibbles([data[0]]) + (if count == 1 then [0xf7] else []) + rest)
    else if data[0] == 0xf9 then
      var (last, rest) := ExpandMidi(3, data[1..]);
      (last, ESCAPE_PREFIX + Nibbles([0x00]) + Nibbles([0xf9]) + rest)
    else
      var (last, rest) := ExpandMidi(0, data[1..]);
      (last, [data[0]] + rest)
  }

  /** scs_input_packet: new input_escape_count and the bytes received. */
  function ExpandPacket(count: nat, packet: Packet): (nat, seq<Byte>)
    requires |packet| >= 1
  {
    if packet[0] == TAG_USER_DATA then ExpandMidi(count, packet[1..])
    else (count, ESCAPE_PREFIX + Nibbles(packet) + [0xf7])
  }

  /** The packets that survive the trip through the MIDI byte stream: any other
      tag than a change of address; plain MIDI only if it is one complete
      message; and the undefined status f9 only with exactly three bytes. */
  predicate IsDeliverable(packet: Packet) {
    && 1 <= |packet| <= MAX_PACKET_SIZE
    && if packet[0] == TAG_USER_DATA
       then IsMessage(packet[1..]) || (|packet| == 5 && packet[1] == 0xf9)
       else packet[0] != TAG_CHANGE_ADDRESS
  }

  // ---------------------------------------------------------------------
  // Round trip
  // ---------------------------------------------------------------------

  lemma ConsumeStatus(p: Parser, byte: Byte)
    requires p.Valid() && 0x80 <= byte < 0xf7 && !IsInvalidCmd(byte) && !IsOneByteCmd(byte)
    ensures var (q, sent) := Consume(p, byte);
            q.Valid() && sent == [] && !q.escaped && q.status == byte && q.buffer[..q.fill] == [TAG_USER_DATA, byte]
  {
    ConsumeSafe(p, byte);
  }

  lemma ConsumeData(p: Parser, byte: Byte)
    requires p.Valid() && !p.escaped && p.fill >= 2 && byte < 0x80
    ensures var (q, sent) := Consume(p, byte); var collected := p.buffer[..p.fill] + [byte];
            && q.Valid()
            && q.status == p.status
            && if (p.fill == 2 && IsTwoBytesCmd(p.status)) || (p.fill == 3 && IsThreeBytesCmd(p.status)) then
                 sent == [collected] && !q.escaped && q.fill == 1
               else if collected[1..] == ESCAPE_PREFIX then
                 sent == [] && q.escaped && q.high && q.fill == 0
               else if |collected| == MAX_PACKET_SIZE then
                 sent == [] && !q.escaped && q.fill == 1
               else
                 sent == [] && !q.escaped && q.fill == p.fill + 1 && q.buffer[..q.fill] == collected
  {
    hide IsTwoBytesCmd;
    ConsumeSafe(p, byte);
    var r := p.(buffer := p.buffer[p.fill := byte], fill := p.fill + 1);
    assert r.buffer[..r.fill] == p.buffer[..p.fill] + [byte];
    if r.fill == 8 {
      assert r.buffer[1..8] == r.buffer[..r.fill][1..];
    }
  }

  /** Plain SysEx data is collected until something special happens. */
  lemma {:induction false} FeedData(p: Parser, data: seq<Byte>)
    requires p.Valid() && !p.escaped && p.fill >= 2 && p.status == 0xf0 && AllData(data)
    requires p.fill + |data| < MAX_PACKET_SIZE && !(ESCAPE_PREFIX <= p.buffer[1..p.fill] + data)
    ensures var (q, sent) := Feed(p, data);
            && sent == [] && !q.escaped && q.status == 0xf0 && q.fill == p.fill + |data|
            && q.buffer[..q.fill] == p.buffer[..p.fill] + data
    decreases |data|
  {
    var b := p.buffer[..p.fill];
    if data == [] {
      assert b + data == b;
    } else {
      ConsumeData(p, data[0]);
      var q := Consume(p, data[0]).0;
      var collected := b + [data[0]];
      assert collected[1..] + data[1..] == p.buffer[1..p.fill] + data;
      assert q.buffer[1..q.fill] == collected[1..];
      assert b + data == collected + data[1..];
      FeedData(q, data[1..]);
    }
  }

  lemma FeedOne(p: Parser, byte: Byte)
    requires p.Valid()
    ensures Feed(p, [byte]) == Consume(p, byte)
  {
    ConsumeSafe(p, byte);
    assert Consume(p, byte).1 + [] == Consume(p, byte).1;
  }

  /** Steps that send nothing compose. */
  lemma FeedQuietly(p: Parser, a: seq<Byte>, b: seq<Byte>)
    requires p.Valid() && Feed(p, a).1 == []
    ensures Feed(p, a + b) == Feed(Feed(p, a).0, b)
  {
    FeedConcat(p, a, b);
    var r := Feed(Feed(p, a).0, b);
    assert [] + r.1 == r.1;
  }

  lemma PrefixParts() returns (a: seq<Byte>, b: seq<Byte>, c: seq<Byte>)
    ensures ESCAPE_PREFIX == a + (b + c) && a == [0xf0] && |b| == 5 && AllData(b) && |c| == 1 && AllData(c)
  {
    a, b, c := ESCAPE_PREFIX[..1], ESCAPE_PREFIX[1..6], ESCAPE_PREFIX[6..];
  }

  lemma FeedStatus(p: Parser, bytes: seq<Byte>)
    requires p.Valid() && |bytes| == 1
    requires 0x80 <= bytes[0] < 0xf7 && !IsInvalidCmd(bytes[0]) && !IsOneByteCmd(bytes[0])
    ensures var (q, sent) := Feed(p, bytes);
            && sent == [] && !q.escaped && q.status == bytes[0] && q.fill == 2
            && q.buffer[..q.fill] == [TAG_USER_DATA] + bytes && q.buffer[1..q.fill] == bytes
  {
    FeedOne(p, bytes[0]);
    assert bytes == [bytes[0]];
    ConsumeStatus(p, bytes[0]);
    var q := Consume(p, bytes[0]).0;
    assert q.buffer[1..q.fill] == q.buffer[..q.fill][1..];
  }

  lemma FeedEscape(p: Parser, bytes: seq<Byte>)
    requires p.Valid() && !p.escaped && p.fill == 7 && p.status == 0xf0 && |bytes| == 1 && AllData(bytes)
    requires p.buffer[..p.fill] + bytes == [TAG_USER_DATA] + ESCAPE_PREFIX
    ensures var (q, sent) := Feed(p, bytes);
            sent == [] && q.escaped && q.high && q.fill == 0
  {
    FeedOne(p, bytes[0]);
    assert bytes == [bytes[0]];
    assert (p.buffer[..p.fill] + bytes)[1..] == ESCAPE_PREFIX;
    ConsumeData(p, bytes[0]);
  }

  lemma FeedPrefixRest(q: Parser, b: seq<Byte>, c: seq<Byte>)
    requires q.Valid() && !q.escaped && q.fill == 2 && q.status == 0xf0
    requires q.buffer[..q.fill] == [TAG_USER_DATA, 0xf0] && q.buffer[1..q.fill] == [0xf0]
    requires |b| == 5 && AllData(b) && |c| == 1 && AllData(c) && [0xf0] + (b + c) == ESCAPE_PREFIX
    ensures var (r, sent) := Feed(q, b + c);
            sent == [] && r.escaped && r.high && r.fill == 0
  {
    hide Feed;
    FeedData(q, b);
    var r := Feed(q, b).0;
    assert r.buffer[..r.fill] + c == [TAG_USER_DATA] + ([0xf0] + (b + c));
    FeedEscape(r, c);
    FeedQuietly(q, b, c);
  }

  /** The escape prefix opens an empty escape SysEx, whatever came before. */
  lemma FeedPrefix(p: Parser)
    requires p.Valid()
    ensures var (q, sent) := Feed(p, ESCAPE_PREFIX);
            sent == [] && q.escaped && q.high && q.fill == 0
  {
    var a, b, c := PrefixParts();
    FeedStatus(p, a);
    FeedPrefixRest(Feed(p, a).0, b, c);
    FeedQuietly(p, a, b + c);
  }

  lemma ConsumeHigh(p: Parser, h: Byte)
    requires p.Valid() && p.escaped && p.high && h < 0x10
    ensures var (q, sent) := Consume(p, h);
            && q.Valid() && sent == [] && q.escaped
            && if p.fill < MAX_PACKET_SIZE
               then !q.high && q.fill == p.fill && q.buffer == p.buffer[p.fill := h << 4]
               else q == p
  {
    ConsumeSafe(p, h);
  }

  lemma ConsumeLow(p: Parser, l: Byte)
    requires p.Valid() && p.escaped && !p.high && l < 0x10
    ensures var (q, sent) := Consume(p, l);
            && q.Valid() && sent == [] && q.escaped && q.high
            && q.buffer[..q.fill] == p.buffer[..p.fill] + [p.buffer[p.fill] | l]
  {
    ConsumeSafe(p, l);
    assert l & 0x0f == l;
  }

  lemma FeedTwo(p: Parser, x: Byte, y: Byte)
    requires p.Valid() && Consume(p, x).1 == []
    ensures Consume(p, x).0.Valid() && Feed(p, [x] + [y]) == Consume(Consume(p, x).0, y)
  {
    ConsumeSafe(p, x);
    FeedOne(p, x);
    FeedOne(Consume(p, x).0, y);
    FeedQuietly(p, [x], [y]);
  }

  lemma SplitByte(byte: Byte)
    ensures ((byte >> 4) << 4) | (byte & 0x0f) == byte && byte >> 4 < 0x10 && byte & 0x0f < 0x10
  {
  }

  lemma FeedByte(p: Parser, byte: Byte) returns (pair: seq<Byte>)
    requires p.Valid() && p.escaped && p.high
    ensures pair == [byte >> 4, byte & 0x0f]
    ensures var (q, sent) := Feed(p, pair); var all := p.buffer[..p.fill] + [byte];
            && sent == [] && q.escaped && q.high
            && q.buffer[..q.fill] == if |all| <= MAX_PACKET_SIZE then all else p.buffer[..p.fill]
  {
    var h, l := byte >> 4, byte & 0x0f;
    SplitByte(byte);
    pair := [h] + [l];
    ConsumeHigh(p, h);
    var q := Consume(p, h).0;
    if p.fill < MAX_PACKET_SIZE {
      ConsumeLow(q, l);
    } else {
      ConsumeHigh(q, l);
    }
    FeedTwo(p, h, l);
  }

  /** What a buffer of the maximal size keeps of `data` behind `b`. */
  function Kept(b: seq<Byte>, data: seq<Byte>): seq<Byte> {
    if |b + data| <= MAX_PACKET_SIZE then b + data else (b + data)[..MAX_PACKET_SIZE]
  }

  lemma KeptNext(b: seq<Byte>, data: seq<Byte>)
    requires |b| <= MAX_PACKET_SIZE && data != []
    ensures Kept(b, data) == Kept(if |b| < MAX_PACKET_SIZE then b + [data[0]] else b, data[1..])
  {
    assert b + data == (b + [data[0]]) + data[1..];
  }

  lemma NoNibbles(p: Parser)
    requires p.Valid()
    ensures Feed(p, Nibbles([])) == (p, [])
  {
  }

  lemma FirstNibbles(data: seq<Byte>)
    requires data != []
    ensures Nibbles(data) == [data[0] >> 4, data[0] & 0x0f] + Nibbles(data[1..])
  {
  }

  /** Inside the escape SysEx nibbles reassemble to bytes; what exceeds the
      buffer is cut off. */
  lemma {:induction false} FeedNibbles(p: Parser, data: seq<Byte>)
    requires p.Valid() && p.escaped && p.high
    ensures var (q, sent) := Feed(p, Nibbles(data));
            sent == [] && q.escaped && q.high && q.buffer[..q.fill] == Kept(p.buffer[..p.fill], data)
    decreases |data|
  {
    hide Consume, Feed, Nibbles;
    if data == [] {
      NoNibbles(p);
      assert p.buffer[..p.fill] + data == p.buffer[..p.fill];
    } else {
      hide Kept;
      var pair := FeedByte(p, data[0]);
      var q := Feed(p, pair).0;
      FirstNibbles(data);
      FeedQuietly(p, pair, Nibbles(data[1..]));
      FeedNibbles(q, data[1..]);
      KeptNext(p.buffer[..p.fill], data);
    }
  }

  /** An escape SysEx sends its bytes, cut to 64, unless the first one is the
      change-of-address tag or there is none. */
  lemma FeedEscapeSysEx(p: Parser, data: seq<Byte>)
    requires p.Valid()
    ensures Feed(p, ESCAPE_PREFIX + Nibbles(data) + [0xf7]).1 ==
            if data == [] || data[0] == TAG_CHANGE_ADDRESS then []
            else [if |data| <= MAX_PACKET_SIZE then data else data[..MAX_PACKET_SIZE]]
  {
    hide Feed;
    FeedPrefix(p);
    var q := Feed(p, ESCAPE_PREFIX).0;
    FeedQuietly(p, ESCAPE_PREFIX, Nibbles(data));
    FeedNibbles(q, data);
    assert q.buffer[..q.fill] + data == data;
    FeedQuietly(p, ESCAPE_PREFIX + Nibbles(data), [0xf7]);
    FeedEscapeEnd(Feed(q, Nibbles(data)).0);
  }

  lemma FeedEscapeEnd(r: Parser)
    requires r.Valid() && r.escaped && r.high
    ensures var b := r.buffer[..r.fill];
            Feed(r, [0xf7]).1 == if b == [] || b[0] == TAG_CHANGE_ADDRESS then [] else [b]
  {
    FeedOne(r, 0xf7);
    assert r.fill >= 1 ==> r.buffer[0] == r.buffer[..r.fill][0];
  }

  lemma {:induction false} ExpandPlain(data: seq<Byte>)
    requires 0xf9 !in data
    ensures ExpandMidi(0, data) == (0, data)
    decreases |data|
  {
    if data != [] {
      ExpandPlain(data[1..]);
      assert [data[0]] + data[1..] == data;
    }
  }

  /** Three bytes behind f9 complete an escape SysEx of their own. */
  lemma ExpandF9(a: Byte, b: Byte, c: Byte, rest: seq<Byte>)
    ensures var (last, tail) := ExpandMidi(0, rest);
            ExpandMidi(0, [0xf9, a, b, c] + rest) ==
            (last, ESCAPE_PREFIX + Nibbles([0x00, 0xf9, a, b, c]) + [0xf7] + tail)
  {
    hide ExpandMidi, Nibbles;
    var r3 := [a] + ([b] + ([c] + rest));
    ExpandThree(a, b, c, rest);
    ExpandF9Head(r3);
    FourBytes(a, b, c, rest);
    NibblesOfFive(0x00, 0xf9, a, b, c);
    Regroup(ESCAPE_PREFIX, Nibbles([0x00]), Nibbles([0xf9]), Nibbles([a]), Nibbles([b]), Nibbles([c]), [0xf7],
            ExpandMidi(0, rest).1);
  }

  lemma FourBytes(a: Byte, b: Byte, c: Byte, rest: seq<Byte>)
    ensures [0xf9, a, b, c] + rest == [0xf9] + ([a] + ([b] + ([c] + rest)))
  {
  }

  /** The three bytes behind f9. */
  lemma ExpandThree(a: Byte, b: Byte, c: Byte, rest: seq<Byte>)
    ensures var (last, tail) := ExpandMidi(0, rest);
            ExpandMidi(3, [a] + ([b] + ([c] + rest))) ==
            (last, Nibbles([a]) + [] + (Nibbles([b]) + [] + (Nibbles([c]) + [0xf7] + tail)))
  {
    hide ExpandMidi, Nibbles;
    ExpandLast(c, rest);
    ExpandMore(2, b, [c] + rest);
    ExpandMore(3, a, [b] + ([c] + rest));
  }

  lemma ExpandMore(count: nat, x: Byte, rest: seq<Byte>)
    requires count > 1
    ensures ExpandMidi(count, [x] + rest).0 == ExpandMidi(count - 1, rest).0
    ensures ExpandMidi(count, [x] + rest).1 == Nibbles([x]) + [] + ExpandMidi(count - 1, rest).1
  {
    ExpandCounted(count, x, rest);
    hide ExpandMidi, Nibbles;
  }

  lemma ExpandLast(x: Byte, rest: seq<Byte>)
    ensures ExpandMidi(1, [x] + rest).0 == ExpandMidi(0, rest).0
    ensures ExpandMidi(1, [x] + rest).1 == Nibbles([x]) + [0xf7] + ExpandMidi(0, rest).1
  {
    ExpandCounted(1, x, rest);
    hide ExpandMidi, Nibbles;
  }

  lemma ExpandF9Head(rest: seq<Byte>)
    ensures ExpandMidi(0, [0xf9] + rest) ==
            (ExpandMidi(3, rest).0, ESCAPE_PREFIX + Nibbles([0x00]) + Nibbles([0xf9]) + ExpandMidi(3, rest).1)
  {
    assert ([0xf9] + rest)[1..] == rest;
  }

  lemma Regroup(p: seq<Byte>, u: seq<Byte>, v: seq<Byte>, a: seq<Byte>, b: seq<Byte>, c: seq<Byte>, e: seq<Byte>,
                t: seq<Byte>)
    ensures p + u + v + (a + [] + (b + [] + (c + e + t))) == p + (u + (v + (a + (b + c)))) + e + t
  {
  }

  lemma NibblesOfFive(u: Byte, v: Byte, a: Byte, b: Byte, c: Byte)
    ensures Nibbles([u, v, a, b, c]) ==
            Nibbles([u]) + (Nibbles([v]) + (Nibbles([a]) + (Nibbles([b]) + Nibbles([c]))))
  {
    NibblesCons(b, [c]);
    NibblesCons(a, [b] + [c]);
    NibblesCons(v, [a] + ([b] + [c]));
    NibblesCons(u, [v] + ([a] + ([b] + [c])));
    assert [u, v, a, b, c] == [u] + ([v] + ([a] + ([b] + [c])));
  }

  lemma ExpandCounted(count: nat, x: Byte, rest: seq<Byte>)
    requires count > 0
    ensures ExpandMidi(count, [x] + rest) ==
            (ExpandMidi(count - 1, rest).0,
             Nibbles([x]) + (if count == 1 then [0xf7] else []) + ExpandMidi(count - 1, rest).1)
  {
    assert ([x] + rest)[1..] == rest;
  }

  lemma NibblesOne(x: Byte)
    ensures Nibbles([x]) == [x >> 4, x & 0x0f]
  {
    assert [x >> 4, x & 0x0f] + Nibbles([]) == [x >> 4, x & 0x0f];
  }

  lemma NibblesCons(x: Byte, rest: seq<Byte>)
    ensures Nibbles([x] + rest) == Nibbles([x]) + Nibbles(rest)
  {
    assert ([x] + rest)[1..] == rest;
    NibblesOne(x);
  }

  lemma ExpandFirst(count: nat, x: Byte, rest: seq<Byte>)
    ensures var next := if count > 0 then count - 1 else if x == 0xf9 then 3 else 0;
            ExpandMidi(count, [x] + rest) ==
            (ExpandMidi(next, rest).0, ExpandMidi(count, [x]).1 + ExpandMidi(next, rest).1)
  {
    assert ([x] + rest)[1..] == rest && [x][1..] == [];
    var next := if count > 0 then count - 1 else if x == 0xf9 then 3 else 0;
    var tail := ExpandMidi(next, rest).1;
    assert ExpandMidi(count, [x]).1 + tail == ExpandMidi(count, [x] + rest).1;
  }
}
