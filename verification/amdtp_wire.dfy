/** What the callback of sound/firewire/amdtp.c puts on the wire: the audio and MIDI
    quadlets of any run of packets, each by its place. */
module AmdtpWire {
  import opened AmdtpTiming
  import opened AmdtpMidi
  import opened AmdtpPackets
  import opened PcmBlocks
  import opened AmdtpData
  import opened AmdtpLoopback
  import opened AmdtpStreams

  // ---------------------------------------------------------------------
  // Audio
  // ---------------------------------------------------------------------

  /** Where a packet shows its sample d of block j. */
  lemma ShownSample(o: Output, packet: seq<Quadlet>, cycle: nat, k: nat, at: Cursor, j: nat, d: nat)
    requires IsPlayable(o, at.pointer) && IsPacket(o, packet, cycle, k, at)
    requires j < BlocksOf(o.blocking, o.sfc, k) && d < o.layout.channels
    ensures Slot(DATA, o.layout.quadlets, j) + o.layout.positions[d] < |packet|
    ensures packet[Slot(DATA, o.layout.quadlets, j) + o.layout.positions[d]] == NextFrames(o, at.pointer, k)[j][d]
  {
    hide NextFrames, BlocksOf, IsPlayable, TotalBlocks, NextMidi, SytAfter, SytField, GetMidi, GetPcm, Slot;
    PcmInBlock(o.layout, packet, BlocksOf(o.blocking, o.sfc, k), j, d);
  }

  lemma PcmInBlock(l: Layout, packet: seq<Quadlet>, n: nat, j: nat, d: nat)
    requires j < n && d < l.channels && Slot(DATA, l.quadlets, n) <= |packet|
    ensures Slot(DATA, l.quadlets, j) + l.positions[d] < |packet|
    ensures GetPcm(l, packet, n)[j][d] == packet[Slot(DATA, l.quadlets, j) + l.positions[d]]
  {
    SlotOrder(DATA, l.quadlets, j, n);
    GetBlocksAt(packet, DATA, l.quadlets, l.positions, l.channels, n, j);
  }

  /** Quadlet c of data block j in such a packet. */
  ghost function PcmQuadlet(l: Layout, packet: seq<Quadlet>, j: nat, c: nat): Quadlet
    requires c < l.channels && Slot(DATA, l.quadlets, j) + l.positions[c] < |packet|
  {
    packet[Slot(DATA, l.quadlets, j) + l.positions[c]]
  }

  /** One packet of a stream with a frame per block, as it is on the wire. */
  lemma PcmShows(o: Output, packet: seq<Quadlet>, cycle: nat, k: nat, at: Cursor, j: nat, c: nat)
    requires IsPlayable(o, at.pointer) && IsPacket(o, packet, cycle, k, at)
    requires j < BlocksOf(o.blocking, o.sfc, k) && c < o.layout.channels
    ensures Slot(DATA, o.layout.quadlets, j) + o.layout.positions[c] < |packet|
    ensures o.pcm.None? ==> PcmQuadlet(o.layout, packet, j, c) == 0x4000_0000
    ensures o.pcm.Some? && !o.double ==>
              var r := o.pcm.value; var f := RingIndex(at.pointer, r.size, j);
              f < r.size && FrameStart(r.channels, f) + c < |r.samples|
              && Carries(PcmQuadlet(o.layout, packet, j, c), r.samples[FrameStart(r.channels, f) + c])
  {
    hide IsPacket, BlocksOf, Carries;
    ShownSample(o, packet, cycle, k, at, j, c);
    if o.pcm.Some? && !o.double {
      NextFrameIs(o, at.pointer, k, j, c);
    }
  }

  lemma NextFrameIs(o: Output, pointer: nat, k: nat, j: nat, c: nat)
    requires IsPlayable(o, pointer) && o.pcm.Some? && !o.double
    requires j < BlocksOf(o.blocking, o.sfc, k) && c < o.layout.channels
    ensures var r := o.pcm.value; var f := RingIndex(pointer, r.size, j);
            f < r.size && FrameStart(r.channels, f) + c < |r.samples|
            && Carries(NextFrames(o, pointer, k)[j][c], r.samples[FrameStart(r.channels, f) + c])
  {
    hide BlocksOf, Source;
    var r := o.pcm.value;
    BlocksFit(o.blocking, o.sfc, k);
    SourceIsRingFrame(pointer, r.size, r.channels, j);
    var f := RingIndex(pointer, r.size, j);
    EncodedCarries(r.samples[FrameStart(r.channels, f) + c]);
    hide Carries;
  }

  /** Packets take up where the one before has stopped: the pointer counts the frames of
      all blocks sent, less whole laps of the ring. */
  lemma {:induction false} CursorCounts(o: Output, at: Cursor, k: nat, i: nat) returns (laps: nat)
    requires IsPlayable(o, at.pointer) && o.pcm.Some?
    ensures var total, before := TotalBlocks(o.blocking, o.sfc, k + i), TotalBlocks(o.blocking, o.sfc, k);
            && CursorAfter(o, at, k, i).pointer < o.pcm.value.size
            && CursorAfter(o, at, k, i).pointer + FrameStart(o.pcm.value.size, laps) ==
               at.pointer + (if o.double then 2 * (total - before) else total - before)
  {
    hide BlocksOf;
    if i == 0 {
      laps := 0;
    } else {
      laps := CursorCounts(o, at, k, i - 1);
      var r, before, n := o.pcm.value, CursorAfter(o, at, k, i - 1), BlocksOf(o.blocking, o.sfc, k + i - 1);
      BlocksFit(o.blocking, o.sfc, k + i - 1);
      TransferFits(o.double, o.blocking, o.sfc, o.layout.channels, r.channels, r.size, before.pointer, n);
      hide IsPlayable, Fits;
      if before.pointer + UnitsOf(o.double, n) >= r.size {
        laps := laps + 1;
      }
    }
  }

  /** Playback: in packet i of any run of the callback, channel c of block j carries,
      behind its label, the upper 24 bits of the sample in the next frame of the ring,
      counted over all packets; or silence if nothing is played. */
  lemma PlaybackOnTheWire(o: Output, packets: seq<seq<Quadlet>>, cycle: nat, k: nat, at: Cursor, i: nat, j: nat, c: nat)
    returns (laps: nat)
    requires IsPlayable(o, at.pointer) && AreOutPackets(o, packets, cycle, k, at) && i < |packets|
    requires j < BlocksOf(o.blocking, o.sfc, k + i) && c < o.layout.channels
    ensures Slot(DATA, o.layout.quadlets, j) + o.layout.positions[c] < |packets[i]|
    ensures o.pcm.None? ==> PcmQuadlet(o.layout, packets[i], j, c) == 0x4000_0000
    ensures o.pcm.Some? && !o.double ==>
              var r := o.pcm.value;
              var passed := TotalBlocks(o.blocking, o.sfc, k + i) - TotalBlocks(o.blocking, o.sfc, k) + j;
              var f := at.pointer + passed - FrameStart(r.size, laps);
              0 <= f < r.size && FrameStart(r.channels, f) + c < |r.samples|
              && Carries(PcmQuadlet(o.layout, packets[i], j, c), r.samples[FrameStart(r.channels, f) + c])
  {
    hide IsPlayable, IsPacket, AreOutPackets, BlocksOf, CursorAfter, Carries, PcmQuadlet;
    OutPacketAt(o, packets, cycle, k, at, i);
    PcmShows(o, packets[i], cycle + i, k + i, CursorAfter(o, at, k, i), j, c);
    laps := 0;
    if o.pcm.Some? {
      laps := CursorCounts(o, at, k, i);
      if CursorAfter(o, at, k, i).pointer + j >= o.pcm.value.size {
        laps := laps + 1;
      }
    }
  }

  // ---------------------------------------------------------------------
  // MIDI
  // ---------------------------------------------------------------------

  /** The MIDI quadlet of block j in a packet. */
  lemma ShownMidi(o: Output, packet: seq<Quadlet>, cycle: nat, k: nat, at: Cursor, j: nat)
    requires IsPlayable(o, at.pointer) && IsPacket(o, packet, cycle, k, at) && o.layout.midiPorts > 0
    requires j < BlocksOf(o.blocking, o.sfc, k)
    ensures Slot(DATA, o.layout.quadlets, j) + o.layout.midiPosition < |packet|
    ensures packet[Slot(DATA, o.layout.quadlets, j) + o.layout.midiPosition] == NextMidi(o, at.ports, k).1[j]
  {
    hide NextFrames, BlocksOf, IsPlayable, TotalBlocks, NextMidi, SytAfter, SytField, GetMidi, GetPcm, Slot;
    MidiInBlock(o.layout, packet, BlocksOf(o.blocking, o.sfc, k), j);
    assert Singles(NextMidi(o, at.ports, k).1)[j][0] == NextMidi(o, at.ports, k).1[j];
  }

  lemma MidiInBlock(l: Layout, packet: seq<Quadlet>, n: nat, j: nat)
    requires l.midiPorts > 0 && j < n && Slot(DATA, l.quadlets, n) <= |packet|
    ensures Slot(DATA, l.quadlets, j) + l.midiPosition < |packet| && |GetMidi(l, packet, n)| == n
    ensures GetMidi(l, packet, n)[j] == [packet[Slot(DATA, l.quadlets, j) + l.midiPosition]]
  {
    SlotOrder(DATA, l.quadlets, j, n);
    GetBlocksAt(packet, DATA, l.quadlets, [l.midiPosition], 1, n, j);
  }

  /** What port `port` sends in packet k: it is tested if one of the first eight blocks
      is its own. */
  ghost function PortTest(o: Output, ports: Ports, k: nat, port: nat): (Port, Option<Byte>)
    requires port < PORTS
  {
    if BlockOfPort(TotalBlocks(o.blocking, o.sfc, k), port) < BlocksOf(o.blocking, o.sfc, k)
    then TestPort(o.sfc, ports[port])
    else (ports[port], None)
  }

  lemma Modulo8(total: nat, port: nat)
    requires port < 8
    ensures BlockOfPort(total % 0x100, port) == BlockOfPort(total, port)
    ensures BlockOfPort(total, port) < 8 && (total + BlockOfPort(total, port)) % 8 == port
  {
    assert total == total % 0x100 + 8 * (32 * (total / 0x100));
    WholeEights(total % 0x100, 32 * (total / 0x100));
    SameDistance(total, total % 0x100, port);
    BlockOfPortUnique(total, port, BlockOfPort(total, port));
  }

  /** Among the first eight blocks, block j is its port's own. */
  lemma OwnBlock(total: nat, j: nat)
    ensures var port := (total + j) % 8; var f := BlockOfPort(total % 0x100, port);
            f == BlockOfPort(total, port) < 8 && (j < 8 ==> f == j)
  {
    var port := (total + j) % 8;
    Modulo8(total, port);
    if j < 8 {
      BlockOfPortUnique(total, port, j);
    }
  }

  /** MIDI: in packet i of any run of the callback, the block whose number since the
      start, modulo 8, is the port's holds the byte that the port's test lets through,
      behind the label 0x81, or nothing, as the label 0x80 says; and so do all blocks
      behind the first eight. */
  lemma MidiOnTheWire(o: Output, packets: seq<seq<Quadlet>>, cycle: nat, k: nat, at: Cursor, i: nat, j: nat)
    requires IsPlayable(o, at.pointer) && AreOutPackets(o, packets, cycle, k, at) && i < |packets|
    requires o.layout.midiPorts > 0 && j < BlocksOf(o.blocking, o.sfc, k + i)
    ensures Slot(DATA, o.layout.quadlets, j) + o.layout.midiPosition < |packets[i]|
    ensures var q := packets[i][Slot(DATA, o.layout.quadlets, j) + o.layout.midiPosition];
            var port := (TotalBlocks(o.blocking, o.sfc, k + i) + j) % 8;
            var sent := PortTest(o, CursorAfter(o, at, k, i).ports, k + i, port).1;
            q == if j < 8 && sent.Some? then 0x8100_0000 + sent.value * 0x1_0000 else 0x8000_0000
  {
    hide IsPlayable, IsPacket, AreOutPackets, BlocksOf, CursorAfter, TestPort, FillMidi, MidiQuadlet, BlockOfPort;
    OutPacketAt(o, packets, cycle, k, at, i);
    var ports, total := CursorAfter(o, at, k, i).ports, TotalBlocks(o.blocking, o.sfc, k + i);
    var port := (total + j) % 8;
    ShownMidi(o, packets[i], cycle + i, k + i, CursorAfter(o, at, k, i), j);
    OwnBlock(total, j);
    PacketTestsOnce(o.sfc, total % 0x100, ports, BlocksOf(o.blocking, o.sfc, k + i), port);
    var sent := TestPort(o.sfc, ports[port]).1;
    MidiQuadletIs(if sent.Some? then sent.value else 0);
    assert sent.Some? ==> sent == Some(sent.value);
  }

  /** What the packets from packet k on, up to packet k + i, carry for a port. */
  ghost function SentBytes(o: Output, at: Cursor, k: nat, i: nat, port: nat): seq<Byte>
    requires IsPlayable(o, at.pointer) && port < PORTS
  {
    if i == 0 then [] else
      var sent := PortTest(o, CursorAfter(o, at, k, i - 1).ports, k + i - 1, port).1;
      SentBytes(o, at, k, i - 1, port) + if sent.Some? then [sent.value] else []
  }

  /** No byte of a port is lost, repeated or put before another. */
  lemma {:induction false} BytesInOrder(o: Output, at: Cursor, k: nat, i: nat, port: nat)
    requires IsPlayable(o, at.pointer) && o.layout.midiPorts > 0 && port < PORTS && at.ports[port].queue.Some?
    ensures var queue := CursorAfter(o, at, k, i).ports[port].queue;
            queue.Some? && at.ports[port].queue.value == SentBytes(o, at, k, i, port) + queue.value
  {
    hide IsPlayable, BlocksOf, TestPort, FillMidi, TotalBlocks;
    if i == 0 {
      assert [] + at.ports[port].queue.value == at.ports[port].queue.value;
    } else {
      BytesInOrder(o, at, k, i - 1, port);
      var before := CursorAfter(o, at, k, i - 1);
      PortAfter(o, before, k + i - 1, port);
      SendsIff(o.sfc, before.ports[port]);
      var sent := PortTest(o, before.ports, k + i - 1, port).1;
      var x, y := SentBytes(o, at, k, i - 1, port), CursorAfter(o, at, k, i).ports[port].queue.value;
      assert sent.Some? ==> x + ([sent.value] + y) == (x + [sent.value]) + y;
      assert x + [] == x;
    }
  }

  /** Without MIDI in the layout the ports are left alone. */
  lemma {:induction false} PortsRest(o: Output, at: Cursor, k: nat, i: nat)
    requires IsPlayable(o, at.pointer) && o.layout.midiPorts == 0
    ensures CursorAfter(o, at, k, i).ports == at.ports
  {
    hide IsPlayable, BlocksOf;
    if i > 0 {
      PortsRest(o, at, k, i - 1);
    }
  }

  lemma PortAfter(o: Output, at: Cursor, k: nat, port: nat)
    requires IsPlayable(o, at.pointer) && o.layout.midiPorts > 0 && port < PORTS
    ensures NextCursor(o, at, k).ports[port] == PortTest(o, at.ports, k, port).0
  {
    hide IsPlayable, BlocksOf, TestPort, FillMidi;
    Modulo8(TotalBlocks(o.blocking, o.sfc, k), port);
    PacketTestsOnce(o.sfc, TotalBlocks(o.blocking, o.sfc, k) % 0x100, at.ports, BlocksOf(o.blocking, o.sfc, k), port);
  }
}
