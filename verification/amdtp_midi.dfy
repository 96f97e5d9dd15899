/** MIDI bytes in the data blocks of an AMDTP stream (sound/firewire/amdtp.c):
    the multiplexing of eight ports over successive blocks, and the token bucket
    that keeps a port below the rate of a MIDI cable. */
module AmdtpMidi {
  import opened AmdtpTiming

  const MIDI_BYTES_PER_SECOND := 3093
  const MAX_MIDI_RX_BLOCKS := 8
  const PORTS := 8

  type Byte = n: nat | n < 256
  type Quadlet = n: nat | n < 0x1_0000_0000

  // ---------------------------------------------------------------------
  // Token bucket of one port
  // ---------------------------------------------------------------------

  /** What leaves the assumed device FIFO per packet, in bytes times rate. */
  function Drain(sfc: Sfc): nat { MIDI_BYTES_PER_SECOND * SytInterval(sfc) }

  /** midi_fifo_limit. */
  function FifoLimit(sfc: Sfc): int { Rate(sfc) - Drain(sfc) + 1 }

  /** The level that a stream of this rate does not exceed by itself. */
  function FifoBound(sfc: Sfc): int { 2 * Rate(sfc) - Drain(sfc) }

  /** amdtp_midi_ratelimit_per_packet: new fill level, and whether to send. */
  function RateLimit(sfc: Sfc, used: nat): (nat, bool) {
    if used == 0 then (0, true) else
      var left := used - Drain(sfc);
      var now := if left > 0 then left else 0;
      (now, now < FifoLimit(sfc))
  }

  /** A port's fill level and its waiting bytes; None when nothing is open. */
  datatype Port = Port(used: nat, queue: Option<seq<Byte>>)
  datatype Option<T> = None | Some(value: T)

  predicate HasByte(p: Port) { p.queue.Some? && p.queue.value != [] }

  /** One test of a port, with the byte sent, if any. */
  function TestPort(sfc: Sfc, p: Port): (Port, Option<Byte>) {
    var (used, allowed) := RateLimit(sfc, p.used);
    if allowed && HasByte(p)
    then (Port(used + Rate(sfc), Some(p.queue.value[1..])), Some(p.queue.value[0]))
    else (Port(used, p.queue), None)
  }

  /** One test, from any level: a byte is paid for by the change of the level,
      and a level above the bound, which another rate may have left behind, only
      goes down. */
  lemma TestPortBucket(sfc: Sfc, p: Port)
    ensures var (q, sent) := TestPort(sfc, p);
            && q.used >= p.used - Drain(sfc) + (if sent.Some? then Rate(sfc) else 0)
            && q.used <= Larger(p.used - Drain(sfc), FifoBound(sfc))
  {
  }

  /** A waiting byte is sent exactly while the device's buffer is not assumed to hold
      more than one byte; and what a test drains is the rate of a MIDI cable. */
  lemma SendsIff(sfc: Sfc, p: Port)
    ensures var (q, sent) := TestPort(sfc, p); var drained := p.used - 3093 * SytInterval(sfc);
            && (sent.Some? <==> p.queue.Some? && p.queue.value != [] && p.used <= Rate(sfc))
            && (sent.Some? ==> p.queue.value == [sent.value] + q.queue.value)
            && (sent.None? ==> q.queue == p.queue) && q.queue.Some? == p.queue.Some?
            && q.used == (if drained > 0 then drained else 0) + if sent.Some? then Rate(sfc) else 0
  {
  }

  /** So a port that has been idle sends in its first two tests, at any rate. */
  lemma FirstTwoSend(sfc: Sfc, a: Byte, b: Byte, rest: seq<Byte>)
    ensures var (p, first) := TestPort(sfc, Port(0, Some([a, b] + rest))); var (q, second) := TestPort(sfc, p);
            first == Some(a) && second == Some(b) && q.queue == Some(rest)
  {
    var waiting := [a, b] + rest;
    assert waiting[1..] == [b] + rest && waiting[1..][1..] == rest;
    SendsIff(sfc, Port(0, Some(waiting)));
    SendsIff(sfc, TestPort(sfc, Port(0, Some(waiting))).0);
  }

  function Larger(a: int, b: int): int { if a > b then a else b }

  /** Levels are not reset when a stream is configured for another rate: one byte
      at 192 kHz is above the bound of 48 kHz. */
  lemma LevelSurvivesRestart(b: Byte)
    ensures TestPort(6, Port(0, Some([b]))).0.used == 192_000 > FifoBound(2)
  {
  }

  // ---------------------------------------------------------------------
  // One packet
  // ---------------------------------------------------------------------

  type Ports = s: seq<Port> | |s| == PORTS witness seq(PORTS, _ => Port(0, None))

  function PortOf(dbc: nat, f: nat): nat { (dbc + f) % 8 }

  function MidiQuadlet(sent: Option<Byte>): Quadlet {
    match sent
    case Some(b) => 0x8100_0000 + b * 0x1_0000
    case None => 0x8000_0000
  }

  /** amdtp_fill_midi: the ports after the first n blocks of a packet, and the
      quadlet that each block carries. */
  function FillMidi(sfc: Sfc, dbc: nat, ports: Ports, n: nat): (r: (Ports, seq<Quadlet>))
    ensures |r.1| == n
  {
    if n == 0 then (ports, []) else
      var (before, quadlets) := FillMidi(sfc, dbc, ports, n - 1);
      var port := PortOf(dbc, n - 1);
      if n - 1 < MAX_MIDI_RX_BLOCKS then
        var (p, sent) := TestPort(sfc, before[port]);
        (before[port := p], quadlets + [MidiQuadlet(sent)])
      else
        (before, quadlets + [MidiQuadlet(None)])
  }

  /** The one block among the first eight that belongs to a port. */
  function BlockOfPort(dbc: nat, port: nat): nat { (port + 8 - dbc % 8) % 8 }

  lemma BlockOfPortUnique(dbc: nat, port: nat, f: nat)
    requires port < 8 && f < 8
    ensures PortOf(dbc, f) == port <==> f == BlockOfPort(dbc, port)
  {
  }

  /** Each port is tested once if its block is among those of the packet, and
      not at all otherwise; so a packet of SYT_INTERVAL blocks tests each port
      exactly once. A byte goes only into the port's own block. */
  lemma {:induction false} PacketTestsOnce(sfc: Sfc, dbc: nat, ports: Ports, n: nat, port: nat)
    requires port < PORTS
    ensures var (after, quadlets) := FillMidi(sfc, dbc, ports, n); var f := BlockOfPort(dbc, port);
            && (f < n ==>
                  && after[port] == TestPort(sfc, ports[port]).0
                  && quadlets[f] == MidiQuadlet(TestPort(sfc, ports[port]).1))
            && (f >= n ==> after[port] == ports[port])
            && (forall k :: 8 <= k < n ==> quadlets[k] == MidiQuadlet(None))
  {
    if n > 0 {
      PacketTestsOnce(sfc, dbc, ports, n - 1, port);
      if n <= 8 {
        BlockOfPortUnique(dbc, port, n - 1);
      }
    }
  }

  // ---------------------------------------------------------------------
  // Receiving side
  // ---------------------------------------------------------------------

  /** amdtp_pull_midi on one quadlet: the bytes for its port. */
  function MidiBytes(q: Quadlet): seq<Byte> {
    var b0, b1, b2, b3 := q / 0x100_0000, q / 0x1_0000 % 0x100, q / 0x100 % 0x100, q % 0x100;
    if b0 == 0x81 then [b1] else if b0 == 0x82 then [b1, b2] else if b0 == 0x83 then [b1, b2, b3] else []
  }

  /** A MIDI quadlet has the number of its bytes in its label, 0x80 to 0x83. */
  lemma MidiQuadletIs(b: Byte)
    ensures MidiQuadlet(Some(b)) == 0x8100_0000 + b * 0x1_0000 && MidiQuadlet(None) == 0x8000_0000
  {
  }

  lemma MidiBytesIs(b0: Byte, b1: Byte, b2: Byte, b3: Byte)
    ensures var q := b0 * 0x100_0000 + b1 * 0x1_0000 + b2 * 0x100 + b3; var n := b0 - 0x80;
            MidiBytes(q) == if 1 <= n <= 3 then [b1, b2, b3][..n] else []
  {
    var q := b0 * 0x100_0000 + b1 * 0x1_0000 + b2 * 0x100 + b3;
    QuadletBytes(b0, b1, b2, b3);
    assert [b1, b2, b3][..1] == [b1] && [b1, b2, b3][..2] == [b1, b2];
  }

  lemma QuadletBytes(b0: Byte, b1: Byte, b2: Byte, b3: Byte)
    ensures var q := b0 * 0x100_0000 + b1 * 0x1_0000 + b2 * 0x100 + b3;
            q / 0x100_0000 == b0 && q / 0x1_0000 % 0x100 == b1 && q / 0x100 % 0x100 == b2 && q % 0x100 == b3
  {
    var q := b0 * 0x100_0000 + b1 * 0x1_0000 + b2 * 0x100 + b3;
    assert q / 0x100 == b0 * 0x1_0000 + b1 * 0x100 + b2;
    assert q / 0x1_0000 == b0 * 0x100 + b1;
  }

  /** What one packet delivers to a port. */
  function PullMidi(dbc: nat, quadlets: seq<Quadlet>, n: nat, port: nat): seq<Byte>
    requires n <= |quadlets|
  {
    if n == 0 then []
    else PullMidi(dbc, quadlets, n - 1, port) + if PortOf(dbc, n - 1) == port then MidiBytes(quadlets[n - 1]) else []
  }

  lemma SamePort(a: nat, b: nat, f: nat)
    ensures PortOf(a, f) == PortOf(b, f) <==> a % 8 == b % 8
  {
  }

  /** Only the counter modulo 8 matters. */
  lemma {:induction false} PullMidiSame(a: nat, b: nat, quadlets: seq<Quadlet>, n: nat, port: nat)
    requires n <= |quadlets| && a % 8 == b % 8
    ensures PullMidi(a, quadlets, n, port) == PullMidi(b, quadlets, n, port)
  {
    hide PortOf;
    if n > 0 {
      SamePort(a, b, n - 1);
      PullMidiSame(a, b, quadlets, n - 1, port);
    }
  }

  /** What the open ports have received once n quadlets have been pulled. */
  function PullAll(dbc: nat, quadlets: seq<Quadlet>, n: nat, open: seq<bool>,
                   received: seq<seq<Byte>>): (r: seq<seq<Byte>>)
    requires n <= |quadlets| && |open| == |received| == PORTS
    ensures |r| == PORTS
  {
    if n == 0 then received
    else
      var before := PullAll(dbc, quadlets, n - 1, open, received);
      var port := PortOf(dbc, n - 1);
      if open[port] then before[port := before[port] + MidiBytes(quadlets[n - 1])] else before
  }

  lemma {:induction false} PullAllAt(dbc: nat, quadlets: seq<Quadlet>, n: nat, open: seq<bool>,
                                     received: seq<seq<Byte>>, port: nat)
    requires n <= |quadlets| && |open| == |received| == PORTS && port < PORTS
    ensures PullAll(dbc, quadlets, n, open, received)[port] ==
            received[port] + if open[port] then PullMidi(dbc, quadlets, n, port) else []
  {
    if n > 0 {
      PullAllAt(dbc, quadlets, n - 1, open, received, port);
    }
  }

  lemma MidiBytesOf(sent: Option<Byte>)
    ensures MidiBytes(MidiQuadlet(sent)) == if sent.Some? then [sent.value] else []
  {
  }

  lemma LastBlock(sfc: Sfc, dbc: nat, ports: Ports, n: nat, port: nat)
    requires n > 0 && port < PORTS && PortOf(dbc, n - 1) == port
    ensures var sent := TestPort(sfc, ports[port]).1;
            MidiBytes(FillMidi(sfc, dbc, ports, n).1[n - 1]) ==
            if BlockOfPort(dbc, port) == n - 1 && sent.Some? then [sent.value] else []
    ensures n <= 8 ==> BlockOfPort(dbc, port) == n - 1
    ensures n > 8 ==> BlockOfPort(dbc, port) < n - 1
  {
    PacketTestsOnce(sfc, dbc, ports, n, port);
    if n <= 8 {
      MidiBytesOf(TestPort(sfc, ports[port]).1);
      BlockOfPortUnique(dbc, port, n - 1);
    } else {
      MidiBytesOf(None);
    }
  }

  /** With equal counters a port receives exactly what was sent from the port
      with the same number. */
  lemma {:induction false} PullFill(sfc: Sfc, dbc: nat, ports: Ports, quadlets: seq<Quadlet>, n: nat, port: nat)
    requires port < PORTS && n <= |quadlets| && quadlets[..n] == FillMidi(sfc, dbc, ports, n).1
    ensures var sent := TestPort(sfc, ports[port]).1;
            PullMidi(dbc, quadlets, n, port) == if BlockOfPort(dbc, port) < n && sent.Some? then [sent.value] else []
  {
    if n > 0 {
      assert quadlets[..n - 1] == quadlets[..n][..n - 1];
      PullFill(sfc, dbc, ports, quadlets, n - 1, port);
      if PortOf(dbc, n - 1) == port {
        LastBlock(sfc, dbc, ports, n, port);
        assert quadlets[n - 1] == quadlets[..n][n - 1];
      } else if n <= 8 {
        BlockOfPortUnique(dbc, port, n - 1);
      }
    }
  }

  // ---------------------------------------------------------------------
  // Any number of packets
  // ---------------------------------------------------------------------

  /** What the application has put into the queues before a packet is filled. */
  type Queues = s: seq<Option<seq<Byte>>> | |s| == PORTS witness seq(PORTS, _ => None)

  function WithQueues(ports: Ports, queues: Queues): Ports {
    seq(PORTS, p requires 0 <= p < PORTS => ports[p].(queue := queues[p]))
  }

  /** A packet of any number of blocks, with what it finds waiting. */
  datatype MidiPacket = MidiPacket(dbc: nat, blocks: nat, queues: Queues)

  /** Ports after the first n packets. */
  function AfterPackets(sfc: Sfc, ports: Ports, packets: seq<MidiPacket>, n: nat): Ports
    requires n <= |packets|
    decreases n, 0
  {
    if n == 0 then ports
    else FillMidi(sfc, packets[n - 1].dbc, PortsBefore(sfc, ports, packets, n - 1), packets[n - 1].blocks).0
  }

  /** Ports when packet k is filled. */
  function PortsBefore(sfc: Sfc, ports: Ports, packets: seq<MidiPacket>, k: nat): Ports
    requires k < |packets|
    decreases k, 1
  {
    WithQueues(AfterPackets(sfc, ports, packets, k), packets[k].queues)
  }

  /** The bytes that a receiver finds for a port in the quadlets of packet k. */
  function BytesIn(sfc: Sfc, ports: Ports, packets: seq<MidiPacket>, k: nat, port: nat): seq<Byte>
    requires k < |packets|
  {
    var p := packets[k];
    PullMidi(p.dbc, FillMidi(sfc, p.dbc, PortsBefore(sfc, ports, packets, k), p.blocks).1, p.blocks, port)
  }

  /** Their number over the first n packets. */
  function BytesSent(sfc: Sfc, ports: Ports, packets: seq<MidiPacket>, n: nat, port: nat): nat
    requires n <= |packets|
  {
    if n == 0 then 0
    else BytesSent(sfc, ports, packets, n - 1, port) + |BytesIn(sfc, ports, packets, n - 1, port)|
  }

  /** Whether a packet has a block for the port among its first eight. */
  predicate Tests(p: MidiPacket, port: nat) { BlockOfPort(p.dbc, port) < p.blocks }

  function TestCount(packets: seq<MidiPacket>, n: nat, port: nat): nat
    requires n <= |packets|
  {
    if n == 0 then 0 else TestCount(packets, n - 1, port) + if Tests(packets[n - 1], port) then 1 else 0
  }

  function BlocksIn(packets: seq<MidiPacket>, n: nat): nat
    requires n <= |packets|
  {
    if n == 0 then 0 else BlocksIn(packets, n - 1) + packets[n - 1].blocks
  }

  /** One packet, for one port: a test and its byte, or nothing at all. */
  lemma PacketForPort(sfc: Sfc, ports: Ports, packets: seq<MidiPacket>, k: nat, port: nat)
    requires k < |packets| && port < PORTS
    ensures var before := PortsBefore(sfc, ports, packets, k)[port];
            var after := AfterPackets(sfc, ports, packets, k + 1)[port];
            var (tested, sent) := TestPort(sfc, before);
            && before.used == AfterPackets(sfc, ports, packets, k)[port].used
            && after == (if Tests(packets[k], port) then tested else before)
            && |BytesIn(sfc, ports, packets, k, port)| == if Tests(packets[k], port) && sent.Some? then 1 else 0
  {
    var p := packets[k];
    var before := PortsBefore(sfc, ports, packets, k);
    var quadlets := FillMidi(sfc, p.dbc, before, p.blocks).1;
    assert quadlets[..p.blocks] == quadlets;
    PacketTestsOnce(sfc, p.dbc, before, p.blocks, port);
    PullFill(sfc, p.dbc, before, quadlets, p.blocks, port);
  }

  /** The level and the counts of a port across one packet. */
  lemma PacketStep(sfc: Sfc, ports: Ports, packets: seq<MidiPacket>, k: nat, port: nat)
    returns (tested: bool, sent: nat)
    requires k < |packets| && port < PORTS
    ensures TestCount(packets, k + 1, port) == TestCount(packets, k, port) + if tested then 1 else 0
    ensures BytesSent(sfc, ports, packets, k + 1, port) == BytesSent(sfc, ports, packets, k, port) + sent
    ensures var before, after := AfterPackets(sfc, ports, packets, k)[port].used,
                                 AfterPackets(sfc, ports, packets, k + 1)[port].used;
            && (!tested ==> sent == 0 && after == before)
            && (tested ==>
                  && sent <= 1 && after >= before - Drain(sfc) + (if sent == 1 then Rate(sfc) else 0)
                  && after <= Larger(before - Drain(sfc), FifoBound(sfc)))
  {
    PacketForPort(sfc, ports, packets, k, port);
    TestPortBucket(sfc, PortsBefore(sfc, ports, packets, k)[port]);
    tested, sent := Tests(packets[k], port), |BytesIn(sfc, ports, packets, k, port)|;
    hide Rate, Drain, FifoBound, TestPort, PortsBefore, BytesIn, Tests, Larger, AfterPackets;
  }

  /** A port's level after some tests and bytes, from a level `start`: it is paid
      for, and above the bound only as far as `start` was not drained yet. */
  predicate IsCovered(rate: nat, drain: nat, bound: int, start: nat, tests: nat, bytes: nat, level: nat) {
    level <= Larger(start - drain * tests, bound) && rate * bytes <= drain * tests + level - start
  }

  /** What the first n packets have done to a port. */
  lemma {:induction false} WindowOf(sfc: Sfc, ports: Ports, packets: seq<MidiPacket>, n: nat, port: nat)
    requires n <= |packets| && port < PORTS
    ensures IsCovered(Rate(sfc), Drain(sfc), FifoBound(sfc), ports[port].used, TestCount(packets, n, port),
                      BytesSent(sfc, ports, packets, n, port), AfterPackets(sfc, ports, packets, n)[port].used)
  {
    hide Rate, Drain, FifoBound, Larger, AfterPackets, TestCount, BytesSent, IsCovered;
    if n == 0 {
      WindowStart(sfc, ports, packets, port);
    } else {
      WindowOf(sfc, ports, packets, n - 1, port);
      var tested, sent := PacketStep(sfc, ports, packets, n - 1, port);
      if tested {
        WindowArithmetic(Rate(sfc), Drain(sfc), FifoBound(sfc), ports[port].used, TestCount(packets, n - 1, port),
                         BytesSent(sfc, ports, packets, n - 1, port),
                         AfterPackets(sfc, ports, packets, n - 1)[port].used,
                         AfterPackets(sfc, ports, packets, n)[port].used, sent);
      }
    }
  }

  lemma WindowStart(sfc: Sfc, ports: Ports, packets: seq<MidiPacket>, port: nat)
    requires port < PORTS
    ensures IsCovered(Rate(sfc), Drain(sfc), FifoBound(sfc), ports[port].used, TestCount(packets, 0, port),
                      BytesSent(sfc, ports, packets, 0, port), AfterPackets(sfc, ports, packets, 0)[port].used)
  {
  }

  lemma CoveredMeans(rate: nat, drain: nat, bound: nat, start: nat, tests: nat, bytes: nat, level: nat)
    requires IsCovered(rate, drain, bound, start, tests, bytes, level)
    ensures rate * bytes <= drain * tests + bound
    ensures level <= bound <==> start <= bound + drain * tests
  {
    assert rate * bytes >= 0;
  }

  lemma WindowArithmetic(rate: nat, drain: nat, bound: int, start: nat, tests: nat, bytes: nat, before: nat, after: nat,
                         sent: nat)
    requires IsCovered(rate, drain, bound, start, tests, bytes, before)
    requires sent <= 1 && after >= before - drain + (if sent == 1 then rate else 0)
    requires after <= Larger(before - drain, bound)
    ensures IsCovered(rate, drain, bound, start, tests + 1, bytes + sent, after)
  {
    WindowStep(rate, bytes);
    WindowStep(drain, tests);
  }

  lemma WindowStep(factor: nat, k: nat)
    ensures factor * (k + 1) == factor * k + factor
  {
  }

  /** Over any window of packets of any sizes, whatever the counters, the levels
      at its beginning and the bytes that wait: the bytes in a port's quadlets are
      paid for by the tests of that port, up to a burst of less than two bytes.
      And the level is at most 2 * rate - 3093 * SYT_INTERVAL exactly if the tests
      have drained whatever it was above that at the beginning. */
  lemma MidiWindow(sfc: Sfc, ports: Ports, packets: seq<MidiPacket>, n: nat, port: nat)
    requires n <= |packets| && port < PORTS
    ensures Rate(sfc) * BytesSent(sfc, ports, packets, n, port) <=
            Drain(sfc) * TestCount(packets, n, port) + 2 * Rate(sfc) - MIDI_BYTES_PER_SECOND * SytInterval(sfc)
    ensures AfterPackets(sfc, ports, packets, n)[port].used <= FifoBound(sfc) <==>
            ports[port].used <= FifoBound(sfc) + Drain(sfc) * TestCount(packets, n, port)
  {
    WindowOf(sfc, ports, packets, n, port);
    hide BytesSent, AfterPackets, TestCount, IsCovered;
    CoveredMeans(Rate(sfc), Drain(sfc), FifoBound(sfc), ports[port].used, TestCount(packets, n, port),
                 BytesSent(sfc, ports, packets, n, port), AfterPackets(sfc, ports, packets, n)[port].used);
  }

  /** A port whose level another rate has left at the limit or above is silent
      until tests have drained it, even if bytes are waiting. */
  lemma {:induction false} HighLevelMutes(sfc: Sfc, ports: Ports, packets: seq<MidiPacket>, n: nat, port: nat)
    requires n <= |packets| && port < PORTS
    requires ports[port].used >= FifoLimit(sfc) + Drain(sfc) * TestCount(packets, n, port)
    ensures BytesSent(sfc, ports, packets, n, port) == 0
    ensures AfterPackets(sfc, ports, packets, n)[port].used ==
            ports[port].used - Drain(sfc) * TestCount(packets, n, port)
  {
    if n > 0 {
      WindowStep(Drain(sfc), TestCount(packets, n - 1, port));
      HighLevelMutes(sfc, ports, packets, n - 1, port);
      PacketForPort(sfc, ports, packets, n - 1, port);
      hide SytInterval, PortsBefore, BytesIn, Tests;
    }
  }

  // ---------------------------------------------------------------------
  // The rate of a MIDI cable
  // ---------------------------------------------------------------------

  /** The packets of blocking mode: empty, or with SYT_INTERVAL blocks. */
  predicate AreBlocking(sfc: Sfc, packets: seq<MidiPacket>) {
    forall k :: 0 <= k < |packets| ==> packets[k].blocks == 0 || packets[k].blocks == SytInterval(sfc)
  }

  /** Each data packet then tests each port exactly once. */
  lemma {:induction false} BlockingTests(sfc: Sfc, packets: seq<MidiPacket>, n: nat, port: nat)
    requires n <= |packets| && port < PORTS && AreBlocking(sfc, packets)
    ensures BlocksIn(packets, n) == SytInterval(sfc) * TestCount(packets, n, port)
  {
    if n > 0 {
      BlockingTests(sfc, packets, n - 1, port);
      WindowStep(SytInterval(sfc), TestCount(packets, n - 1, port));
    }
  }

  /** A blocking stream of any rate keeps to the rate of a cable. */
  lemma BlockingWindow(sfc: Sfc, ports: Ports, packets: seq<MidiPacket>, n: nat, port: nat)
    requires n <= |packets| && port < PORTS && AreBlocking(sfc, packets)
    ensures Rate(sfc) * BytesSent(sfc, ports, packets, n, port) <=
            MIDI_BYTES_PER_SECOND * BlocksIn(packets, n) + 2 * Rate(sfc) - MIDI_BYTES_PER_SECOND * SytInterval(sfc)
  {
    MidiWindow(sfc, ports, packets, n, port);
    BlockingTests(sfc, packets, n, port);
    ProductGroups(MIDI_BYTES_PER_SECOND, SytInterval(sfc), TestCount(packets, n, port));
  }

  lemma ProductGroups(a: nat, b: nat, c: nat)
    ensures a * (b * c) == (a * b) * c
  {
  }

  /** Counters that run on from packet to packet. */
  predicate Counting(packets: seq<MidiPacket>, n: nat)
    requires n <= |packets|
  {
    forall k :: 0 < k < n ==> packets[k].dbc % 8 == (packets[k - 1].dbc + packets[k - 1].blocks) % 8
  }

  lemma {:induction false} DistanceStep(dbc: nat, blocks: nat, port: nat)
    requires port < PORTS
    ensures (if BlockOfPort(dbc, port) < blocks then 8 else 0) <=
            blocks + BlockOfPort(dbc + blocks, port) - BlockOfPort(dbc, port)
    decreases blocks
  {
    hide BlockOfPort;
    if blocks == 0 {
      assert dbc + blocks == dbc;
    } else {
      NextDistance(dbc, port);
      DistanceStep(dbc + 1, blocks - 1, port);
      assert (dbc + 1) + (blocks - 1) == dbc + blocks;
    }
  }

  lemma NextDistance(dbc: nat, port: nat)
    requires port < PORTS
    ensures BlockOfPort(dbc + 1, port) == if BlockOfPort(dbc, port) == 0 then 7 else BlockOfPort(dbc, port) - 1
  {
    assert (dbc + 1) % 8 == if dbc % 8 == 7 then 0 else dbc % 8 + 1;
  }

  lemma SameDistance(a: nat, b: nat, port: nat)
    requires a % 8 == b % 8
    ensures BlockOfPort(a, port) == BlockOfPort(b, port)
  {
  }

  /** Tests of a port are at least eight blocks apart, whatever the packet sizes. */
  lemma {:induction false} TestsApart(packets: seq<MidiPacket>, n: nat, port: nat)
    requires 0 < n <= |packets| && port < PORTS && Counting(packets, n)
    ensures 8 * TestCount(packets, n, port) <=
            BlocksIn(packets, n) + BlockOfPort(packets[n - 1].dbc + packets[n - 1].blocks, port)
    decreases n
  {
    DistanceStep(packets[n - 1].dbc, packets[n - 1].blocks, port);
    if n == 1 {
      assert TestCount(packets, 0, port) == 0 && BlocksIn(packets, 0) == 0;
    } else {
      TestsApart(packets, n - 1, port);
      SameDistance(packets[n - 2].dbc + packets[n - 2].blocks, packets[n - 1].dbc, port);
    }
  }

  /** At 32, 44.1 and 48 kHz the tests keep every stream, blocking or not, to the
      rate of a cable. */
  lemma CableRate(sfc: Sfc, ports: Ports, packets: seq<MidiPacket>, n: nat, port: nat)
    requires n <= |packets| && port < PORTS && Counting(packets, n) && SytInterval(sfc) == 8
    ensures Rate(sfc) * BytesSent(sfc, ports, packets, n, port) <=
            MIDI_BYTES_PER_SECOND * (BlocksIn(packets, n) + 7) + 2 * Rate(sfc) - MIDI_BYTES_PER_SECOND * 8
  {
    MidiWindow(sfc, ports, packets, n, port);
    if n > 0 {
      TestsApart(packets, n, port);
    }
  }

  /** Bytes are always waiting at the port. */
  predicate Busy(packets: seq<MidiPacket>, n: nat, port: nat)
    requires n <= |packets| && port < PORTS
  {
    forall k :: 0 <= k < n ==> packets[k].queues[port].Some? && packets[k].queues[port].value != []
  }

  /** Above 48 kHz, of two tests of a busy port at least one sends a byte. */
  lemma {:induction false} BusyPortSends(sfc: Sfc, ports: Ports, packets: seq<MidiPacket>, n: nat, port: nat)
    requires n <= |packets| && port < PORTS && ports[port].used <= FifoBound(sfc) && SytInterval(sfc) > 8
    requires Busy(packets, n, port) && forall k :: 0 <= k < n ==> packets[k].blocks >= 8
    ensures AfterPackets(sfc, ports, packets, n)[port].used <= FifoBound(sfc)
    ensures 2 * BytesSent(sfc, ports, packets, n, port) + 1 >=
            n + if AfterPackets(sfc, ports, packets, n)[port].used > FifoBound(sfc) - Drain(sfc) then 1 else 0
  {
    if n > 0 {
      BusyPortSends(sfc, ports, packets, n - 1, port);
      PacketForPort(sfc, ports, packets, n - 1, port);
      TestPortBucket(sfc, PortsBefore(sfc, ports, packets, n - 1)[port]);
    }
  }

  /** Non-blocking packets above 48 kHz: at least eight blocks, at most three
      quarters of SYT_INTERVAL. */
  lemma NonBlockingSizes(sfc: Sfc, k: nat)
    requires SytInterval(sfc) > 8
    ensures 8 <= BlocksOf(false, sfc, k) && 4 * BlocksOf(false, sfc, k) <= 3 * SytInterval(sfc)
  {
    var u := PhaseAfter(sfc, k);
  }

  lemma {:induction false} NonBlockingCount(sfc: Sfc, packets: seq<MidiPacket>, n: nat, start: nat)
    requires n <= |packets| && SytInterval(sfc) > 8
    requires forall k :: 0 <= k < n ==> packets[k].blocks == BlocksOf(false, sfc, start + k)
    ensures 4 * BlocksIn(packets, n) <= 3 * SytInterval(sfc) * n
  {
    if n > 0 {
      NonBlockingCount(sfc, packets, n - 1, start);
      NonBlockingSizes(sfc, start + n - 1);
      WindowStep(3 * SytInterval(sfc), n - 1);
    }
  }

  /** But above 48 kHz a non-blocking stream sends a busy port's bytes faster than
      a cable takes them, by an amount that grows with every packet: the limiter
      drains a whole SYT_INTERVAL at each packet. */
  lemma CableRateExceeded(sfc: Sfc, ports: Ports, packets: seq<MidiPacket>, n: nat, port: nat, start: nat)
    requires n <= |packets| && port < PORTS && ports[port].used <= FifoBound(sfc) && SytInterval(sfc) > 8
    requires Busy(packets, n, port) && forall k :: 0 <= k < n ==> packets[k].blocks == BlocksOf(false, sfc, start + k)
    ensures 2 * (Rate(sfc) * BytesSent(sfc, ports, packets, n, port)) + Rate(sfc) >=
            2 * (MIDI_BYTES_PER_SECOND * BlocksIn(packets, n)) + 13_000 * n
  {
    forall k | 0 <= k < n ensures packets[k].blocks >= 8 {
      NonBlockingSizes(sfc, start + k);
    }
    BusyPortSends(sfc, ports, packets, n, port);
    NonBlockingCount(sfc, packets, n, start);
    ExceededArithmetic(sfc, BytesSent(sfc, ports, packets, n, port), BlocksIn(packets, n), n);
  }

  lemma ExceededArithmetic(sfc: Sfc, bytes: nat, blocks: nat, n: nat)
    requires SytInterval(sfc) > 8 && 2 * bytes + 1 >= n && 4 * blocks <= 3 * SytInterval(sfc) * n
    ensures 2 * (Rate(sfc) * bytes) + Rate(sfc) >= 2 * (MIDI_BYTES_PER_SECOND * blocks) + 13_000 * n
  {
  }
}
