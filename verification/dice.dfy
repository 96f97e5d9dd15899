/** The dual wire mode of DICE devices (sound/firewire/dice/dice-stream.c): at
    176.4 and 192 kHz two PCM frames travel in one data block. */
module Dice {
  import opened AmdtpTiming
  import opened AmdtpMidi
  import opened PcmBlocks
  import opened AmdtpData
  import opened AmdtpLoopback
  import opened AmdtpStreams
  import opened AmdtpWire

  // ---------------------------------------------------------------------
  // The position map
  // ---------------------------------------------------------------------

  /** `half` device channels: the two samples of a channel stand side by side. */
  ghost predicate IsInterleaved(positions: seq<nat>, half: nat) {
    && 2 * half <= |positions|
    && forall i :: 0 <= i < half ==> positions[i] == 2 * i && positions[i + half] == 2 * i + 1
  }

  /** The map takes the stream's channels one to one onto the PCM quadlets. */
  lemma InterleavedIsBijection(positions: seq<nat>, half: nat)
    requires IsInterleaved(positions, half)
    ensures IsPlacement(positions, 2 * half, 2 * half)
    ensures forall q :: 0 <= q < 2 * half ==> ChannelAt(half, q) < 2 * half && positions[ChannelAt(half, q)] == q
  {
    forall c, d | 0 <= c < d < 2 * half ensures positions[c] != positions[d] && positions[c] < 2 * half {
      InterleavedAt(positions, half, c);
      InterleavedAt(positions, half, d);
    }
    forall c | 0 <= c < 2 * half ensures positions[c] < 2 * half {
      InterleavedAt(positions, half, c);
    }
    forall q | 0 <= q < 2 * half ensures ChannelAt(half, q) < 2 * half && positions[ChannelAt(half, q)] == q {
      InterleavedAt(positions, half, ChannelAt(half, q));
    }
  }

  /** The stream channel whose samples stand in quadlet q. */
  function ChannelAt(half: nat, q: nat): nat { if q % 2 == 0 then q / 2 else q / 2 + half }

  lemma InterleavedAt(positions: seq<nat>, half: nat, c: nat)
    requires IsInterleaved(positions, half) && c < 2 * half
    ensures positions[c] == if c < half then 2 * c else 2 * (c - half) + 1
  {
    assert c >= half ==> positions[(c - half) + half] == 2 * (c - half) + 1;
  }

  // ---------------------------------------------------------------------
  // start_stream
  // ---------------------------------------------------------------------

  /** The loop of start_stream, on the stream's position map. */
  method Interleave(initial: seq<nat>, half: nat) returns (positions: seq<nat>)
    requires 2 * half <= |initial|
    ensures IsInterleaved(positions, half) && |positions| == |initial|
    ensures forall c :: 2 * half <= c < |initial| ==> positions[c] == initial[c]
  {
    positions := initial;
    var i := 0;
    while i < half
      invariant i <= half && |positions| == |initial|
      invariant forall j :: 0 <= j < i ==> positions[j] == 2 * j && positions[j + half] == 2 * j + 1
      invariant forall c :: 2 * half <= c < |initial| ==> positions[c] == initial[c]
    {
      positions := positions[i := i * 2];
      positions := positions[i + half := i * 2 + 1];
      i := i + 1;
    }
  }

  /** snd_dice_stream_get_rate_mode: modes 0, 1 and 2 for the single, double and
      quadruple rates that the device's clock supports. */
  method GetRateMode(clockCaps: set<nat>, rate: nat) returns (mode: Option<nat>)
    ensures mode.None? <==> forall i :: 0 <= i < |RATES| && i in clockCaps ==> RATES[i] != rate
    ensures mode.Some? ==> rate in RATES && mode.value == if rate <= 48000 then 0 else if rate <= 96000 then 1 else 2
  {
    var i := 0;
    while i < |RATES|
      invariant i <= |RATES| && forall j :: 0 <= j < i && j in clockCaps ==> RATES[j] != rate
    {
      if i in clockCaps && RATES[i] == rate {
        return Some(if i == 0 then 0 else (i - 1) / 2);    // C divides -1 by 2 to 0
      }
      i := i + 1;
    }
    mode := None;
  }

  /** The end of start_stream's branch for quadruple rates. */
  method PlaceSideBySide(stream: AmdtpStream, half: nat)
    requires stream.layout.channels == 2 * half <= stream.layout.quadlets
    requires stream.layout.midiPorts > 0 ==> stream.layout.midiPosition == 2 * half
    requires |stream.layout.positions| >= 2 * half
    modifies stream`layout
    ensures IsDual(stream.layout, half) && stream.layout.midiPorts == old(stream.layout.midiPorts)
  {
    var positions := Interleave(stream.layout.positions, half);
    InterleavedLayout(stream.layout, positions, half);
    stream.layout := stream.layout.(positions := positions);
  }

  /** start_stream up to the allocation of resources, with the device's numbers
      of channels and MIDI ports for each mode; false if the rate or the
      parameters do not fit. */
  method ConfigureStream(stream: AmdtpStream, clockCaps: set<nat>, rate: nat, channels: seq<nat>, midiPorts: seq<nat>)
    returns (ok: bool)
    requires stream.Initialized() && |channels| == |midiPorts| == 3
    modifies stream
    ensures ok <==>
              && !old(stream.running)
              && (exists i :: 0 <= i < |RATES| && i in clockCaps && RATES[i] == rate)
              && var mode := if rate <= 48000 then 0 else if rate <= 96000 then 1 else 2;
              var wireChannels := if mode == 2 then 2 * channels[2] else channels[mode];
              wireChannels <= AMDTP_MAX_CHANNELS_FOR_PCM && midiPorts[mode] <= 8
    ensures stream.Initialized()
    ensures ok ==>
              && stream.doublePcmFrames == (rate > 96000) && rate in RATES
              && var mode := if rate <= 48000 then 0 else if rate <= 96000 then 1 else 2;
              stream.configured == (channels[mode] + midiPorts[mode] > 0)
    ensures ok && stream.configured && rate > 96000 ==>
              && 2 * Rate(stream.sfc) == rate && stream.sytInterval == 16
              && IsDual(stream.layout, channels[2]) && stream.layout.midiPorts == midiPorts[2]
    ensures ok && stream.configured && rate <= 96000 ==>
              && Rate(stream.sfc) == rate && stream.layout.channels == channels[if rate <= 48000 then 0 else 1]
              && stream.layout.midiPorts == midiPorts[if rate <= 48000 then 0 else 1]
              && stream.layout.positions[..stream.layout.channels] == seq(stream.layout.channels, c => c)
  {
    hide IsInterleaved;
    var mode := GetRateMode(clockCaps, rate);
    if mode.None? {
      return false;
    }
    var pcmChs, wireRate := channels[mode.value], rate;
    stream.doublePcmFrames := mode.value > 1;
    if mode.value > 1 {
      wireRate := rate / 2;
      pcmChs := pcmChs * 2;
    }
    ok := stream.SetParameters(wireRate, pcmChs, midiPorts[mode.value]);
    if !ok {
      return;
    }
    if mode.value > 1 && stream.configured {    // or there is no channel to place
      PlaceSideBySide(stream, pcmChs / 2);
    }
  }

  ghost predicate IsDual(l: Layout, half: nat) {
    l.channels == 2 * half <= l.quadlets && IsInterleaved(l.positions, half)
  }

  lemma InterleavedLayout(l: Layout, positions: seq<nat>, half: nat)
    requires l.channels == 2 * half <= l.quadlets && (l.midiPorts > 0 ==> l.midiPosition == 2 * half)
    requires IsInterleaved(positions, half)
    ensures IsLayout(l.(positions := positions))
  {
    InterleavedIsBijection(positions, half);
  }

  // ---------------------------------------------------------------------
  // Two frames in a block
  // ---------------------------------------------------------------------

  /** The transfer counts one frame per block although it takes two: it stays
      inside the ring exactly when the frames of all blocks lie before its end. */
  lemma DualFitsIff(half: nat, size: nat, pointer: nat, n: nat)
    requires half > 0 && pointer < size && n > 0
    ensures Fits(FrameStart(half, size), FrameStart(half, pointer), size - pointer, 2 * half, n) <==>
            pointer + 2 * n <= size
  {
    if pointer + 2 * n <= size {
      DualFits(half, size, pointer, n);
    } else {
      var i := if n <= size - pointer then n - 1 else size - pointer - 1;
      DualBlockOutside(half, size, pointer, i);
      assert Source(FrameStart(half, pointer), size - pointer, 2 * half, i) + 2 * half > FrameStart(half, size);
    }
  }

  lemma DualBlockOutside(half: nat, size: nat, pointer: nat, i: nat)
    requires half > 0 && pointer + i < size < pointer + 2 * i + 2
    ensures Source(FrameStart(half, pointer), size - pointer, 2 * half, i) + 2 * half > FrameStart(half, size)
  {
    DualSource(half, pointer, size - pointer, i);
    FrameStartOrder(half, size, pointer + 2 * i + 2);
    TwoFrames(half, pointer + 2 * i);
  }

  /** Sample c of PCM frame f. */
  function Sample(ring: seq<Quadlet>, half: nat, f: nat, c: nat): Quadlet
    requires c < half && FrameStart(half, f) + c < |ring|
  {
    ring[FrameStart(half, f) + c]
  }

  lemma SampleInside(half: nat, size: nat, f: nat, c: nat)
    requires f < size && c < half
    ensures FrameStart(half, f) + c < FrameStart(half, size)
  {
    FrameStartOrder(half, f, size);
  }

  /** What the transfer takes for the frames of n blocks. */
  ghost function DualFrames(half: nat, ring: seq<Quadlet>, size: nat, pointer: nat, n: nat): (r: seq<seq<Quadlet>>)
    requires |ring| == FrameStart(half, size) && pointer < size && pointer + 2 * n <= size
    ensures |r| == n && forall i :: 0 <= i < n ==> |r[i]| == 2 * half
  {
    DualFits(half, size, pointer, n);
    Frames(ring, FrameStart(half, pointer), size - pointer, 2 * half, n)
  }

  /** The "frame" of block j is two PCM frames, one behind the other. */
  lemma DualFrameIs(half: nat, ring: seq<Quadlet>, size: nat, pointer: nat, n: nat, j: nat, c: nat)
    requires |ring| == FrameStart(half, size) && pointer + 2 * n <= size && j < n && c < half
    ensures FrameStart(half, pointer + 2 * j) + c < |ring| && FrameStart(half, pointer + 2 * j + 1) + c < |ring|
    ensures DualFrames(half, ring, size, pointer, n)[j][c] == Sample(ring, half, pointer + 2 * j, c)
    ensures DualFrames(half, ring, size, pointer, n)[j][c + half] == Sample(ring, half, pointer + 2 * j + 1, c)
  {
    DualFits(half, size, pointer, n);
    SampleInside(half, size, pointer + 2 * j, c);
    SampleInside(half, size, pointer + 2 * j + 1, c);
    DualSource(half, pointer, size - pointer, j);
    TwoFrames(half, pointer + 2 * j);
    assert Source(FrameStart(half, pointer), size - pointer, 2 * half, j) + 2 * half <= |ring|;
  }

  /** Sample c of the PCM frames 2j and 2j + 1 behind the pointer stands in quadlets
      2c and 2c + 1 of data block j. */
  ghost predicate StandSideBySide(quadlets: nat, half: nat, ring: seq<Quadlet>, size: nat, pointer: nat,
                                  packet: seq<Quadlet>, j: nat, c: nat)
    requires |ring| == FrameStart(half, size) && pointer + 2 * j + 1 < size && c < half
    requires Slot(DATA, quadlets, j) + 2 * c + 1 < |packet|
  {
    SampleInside(half, size, pointer + 2 * j, c);
    SampleInside(half, size, pointer + 2 * j + 1, c);
    var b := Slot(DATA, quadlets, j);
    && Carries(packet[b + 2 * c], Sample(ring, half, pointer + 2 * j, c))
    && Carries(packet[b + 2 * c + 1], Sample(ring, half, pointer + 2 * j + 1, c))
  }

  /** The same for a packet of n blocks, as the transfer leaves it. */
  ghost predicate SideBySide(l: Layout, half: nat, ring: seq<Quadlet>, size: nat, pointer: nat, area: seq<Quadlet>,
                             n: nat, j: nat, c: nat)
    requires IsDual(l, half) && |ring| == FrameStart(half, size)
    requires pointer + 2 * n <= size && j < n && c < half && Slot(DATA, l.quadlets, n) <= |area|
  {
    SlotOrder(DATA, l.quadlets, j, n);
    var sent := PutPcm(l, area, EncodeFrames(DualFrames(half, ring, size, pointer, n)), n);
    StandSideBySide(l.quadlets, half, ring, size, pointer, sent, j, c)
  }

  lemma DualSampleLands(l: Layout, half: nat, ring: seq<Quadlet>, size: nat, pointer: nat, area: seq<Quadlet>, n: nat,
                        j: nat, c: nat)
    requires IsDual(l, half) && |ring| == FrameStart(half, size)
    requires pointer + 2 * n <= size && j < n && c < half && Slot(DATA, l.quadlets, n) <= |area|
    ensures SideBySide(l, half, ring, size, pointer, area, n, j, c)
  {
    hide FrameStart, Carries, StandSideBySide, PutPcm, DualFrames, EncodeFrames, IsInterleaved, Slot;
    var frames := EncodeFrames(DualFrames(half, ring, size, pointer, n));
    NeighbourSamples(l, half, area, frames, n, j, c);
    PairStands(l.quadlets, half, ring, size, pointer, n, PutPcm(l, area, frames, n), j, c);
  }

  lemma NeighbourSamples(l: Layout, half: nat, area: seq<Quadlet>, frames: seq<seq<Quadlet>>, n: nat, j: nat, c: nat)
    requires IsDual(l, half) && j < n == |frames| && c < half && Slot(DATA, l.quadlets, n) <= |area|
    requires forall i :: 0 <= i < n ==> |frames[i]| == l.channels
    ensures Slot(DATA, l.quadlets, j) + 2 * c + 1 < |area|
    ensures PutPcm(l, area, frames, n)[Slot(DATA, l.quadlets, j) + 2 * c] == frames[j][c]
    ensures PutPcm(l, area, frames, n)[Slot(DATA, l.quadlets, j) + 2 * c + 1] == frames[j][c + half]
  {
    InterleavedAt(l.positions, half, c);
    InterleavedAt(l.positions, half, c + half);
    SentSample(l, area, frames, n, j, c);
    SentSample(l, area, frames, n, j, c + half);
  }

  lemma SentSample(l: Layout, area: seq<Quadlet>, frames: seq<seq<Quadlet>>, n: nat, j: nat, d: nat)
    requires j < n == |frames| && d < l.channels && Slot(DATA, l.quadlets, n) <= |area|
    requires forall i :: 0 <= i < n ==> |frames[i]| == l.channels
    ensures Slot(DATA, l.quadlets, j) + l.positions[d] < |area|
    ensures PutPcm(l, area, frames, n)[Slot(DATA, l.quadlets, j) + l.positions[d]] == frames[j][d]
  {
    SlotOrder(DATA, l.quadlets, j, n);
    GetPut(area, DATA, l.quadlets, l.positions, l.channels, frames, n, j);
    assert GetBlock(PutPcm(l, area, frames, n), Slot(DATA, l.quadlets, j), l.positions, l.channels)[d] == frames[j][d];
  }

  // ---------------------------------------------------------------------
  // Any run from prepare
  // ---------------------------------------------------------------------

  /** A dual wire stream's packets, from the moment that prepare has set the
      pointer to 0 and a substream is attached: empty ones and full ones in any
      order, as a blocking schedule makes them, wherever it stands by then, or as
      the other end makes them, for a stream that is synchronized to it or
      received from it. */
  predicate IsBlocking(blocks: seq<nat>) { forall k :: 0 <= k < |blocks| ==> blocks[k] == 0 || blocks[k] == 16 }

  /** The PCM pointer after the first k packets. */
  function PointerAfter(size: nat, blocks: seq<nat>, k: nat): nat
    requires k <= |blocks|
  {
    if k == 0 then 0 else NextPointer(PointerAfter(size, blocks, k - 1), size, 2 * blocks[k - 1])
  }

  function SumBlocks(blocks: seq<nat>, k: nat): nat
    requires k <= |blocks|
  {
    if k == 0 then 0 else SumBlocks(blocks, k - 1) + blocks[k - 1]
  }

  /** How often the pointer has gone round in k packets. */
  function LapsAfter(size: nat, blocks: seq<nat>, k: nat): nat
    requires k <= |blocks|
  {
    if k == 0 then 0
    else LapsAfter(size, blocks, k - 1) + if PointerAfter(size, blocks, k - 1) + 2 * blocks[k - 1] >= size then 1 else 0
  }

  /** The pointer is the number of frames transferred, less whole laps. */
  lemma {:induction false} PointerCounts(size: nat, blocks: seq<nat>, k: nat)
    requires k <= |blocks|
    ensures PointerAfter(size, blocks, k) + FrameStart(size, LapsAfter(size, blocks, k)) == 2 * SumBlocks(blocks, k)
  {
    if k > 0 {
      PointerCounts(size, blocks, k - 1);
    }
  }

  /** With a buffer of a multiple of 32 frames, the pointer stays at multiples of
      32 below the end, so that a whole data packet is always before the end. */
  lemma {:induction false} PointerAligned(units: nat, blocks: seq<nat>, k: nat) returns (unit: nat)
    requires units > 0 && k <= |blocks| && IsBlocking(blocks)
    ensures unit < units && PointerAfter(32 * units, blocks, k) == 32 * unit
  {
    if k == 0 {
      unit := 0;
    } else {
      var before := PointerAligned(units, blocks, k - 1);
      unit := NextPointer(before, units, if blocks[k - 1] == 0 then 0 else 1);
    }
  }

  lemma DataPacketFits(units: nat, blocks: seq<nat>, k: nat)
    requires units > 0 && k < |blocks| && IsBlocking(blocks)
    ensures PointerAfter(32 * units, blocks, k) < 32 * units
    ensures PointerAfter(32 * units, blocks, k) + 2 * blocks[k] <= 32 * units
  {
    var _ := PointerAligned(units, blocks, k);
  }

  /** No packet of any run reads or writes beyond the end of the ring, although
      the transfer counts only half the frames it takes; and every sample of a
      data packet stands where the device expects it. */
  lemma DualWire(l: Layout, half: nat, ring: seq<Quadlet>, units: nat, blocks: seq<nat>, k: nat,
                 area: seq<Quadlet>, j: nat, c: nat)
    requires IsDual(l, half) && units > 0 && |ring| == FrameStart(half, 32 * units)
    requires IsBlocking(blocks) && k < |blocks| && j < blocks[k] && c < half
             && Slot(DATA, l.quadlets, blocks[k]) <= |area|
    ensures var pointer := PointerAfter(32 * units, blocks, k);
            && pointer + 2 * blocks[k] <= 32 * units
            && Fits(|ring|, FrameStart(half, pointer), 32 * units - pointer, 2 * half, blocks[k])
            && SideBySide(l, half, ring, 32 * units, pointer, area, blocks[k], j, c)
  {
    hide PointerAfter, SideBySide, Fits, FrameStart, Source;
    DataPacketFits(units, blocks, k);
    DualFits(half, 32 * units, PointerAfter(32 * units, blocks, k), blocks[k]);
    DualSampleLands(l, half, ring, 32 * units, PointerAfter(32 * units, blocks, k), area, blocks[k], j, c);
  }

  /** The packets of a self-timed dual wire stream are of this kind, from any
      packet on. */
  lemma ScheduleIsBlocking(sfc: Sfc, start: nat, blocks: seq<nat>)
    requires SytInterval(sfc) == 16 && forall k :: 0 <= k < |blocks| ==> blocks[k] == BlocksOf(true, sfc, start + k)
    ensures IsBlocking(blocks)
  {
    forall k | 0 <= k < |blocks| ensures blocks[k] == 0 || blocks[k] == 16 {
      BlockingSizes(sfc, start + k);
    }
  }

  // ---------------------------------------------------------------------
  // What the callback sends
  // ---------------------------------------------------------------------

  ghost predicate IsDualOutput(o: Output) { o.double && o.pcm.Some? && IsDual(o.layout, o.pcm.value.channels) }

  /** One packet, as it is on the wire. */
  lemma DualPacketShows(o: Output, packet: seq<Quadlet>, cycle: nat, k: nat, at: Cursor, j: nat, c: nat)
    requires IsPlayable(o, at.pointer) && IsDualOutput(o) && IsPacket(o, packet, cycle, k, at)
    requires j < BlocksOf(o.blocking, o.sfc, k) && c < o.pcm.value.channels
    ensures var r := o.pcm.value;
            && at.pointer + 2 * j + 1 < r.size && Slot(DATA, o.layout.quadlets, j) + 2 * c + 1 < |packet|
            && StandSideBySide(o.layout.quadlets, r.channels, r.samples, r.size, at.pointer, packet, j, c)
  {
    hide NextFrames, DualFrames, EncodeFrames, IsPacket, IsPlayable, BlocksOf, Slot, FrameStart, IsInterleaved,
      StandSideBySide;
    var r, l, n := o.pcm.value, o.layout, BlocksOf(o.blocking, o.sfc, k);
    DualNextFrames(o, at.pointer, k);
    InterleavedAt(l.positions, r.channels, c);
    InterleavedAt(l.positions, r.channels, c + r.channels);
    ShownSample(o, packet, cycle, k, at, j, c);
    ShownSample(o, packet, cycle, k, at, j, c + r.channels);
    PairStands(l.quadlets, r.channels, r.samples, r.size, at.pointer, n, packet, j, c);
  }

  /** Two neighbouring quadlets that hold the samples of the transfer's "frame". */
  lemma PairStands(quadlets: nat, half: nat, ring: seq<Quadlet>, size: nat, pointer: nat, n: nat, packet: seq<Quadlet>,
                   j: nat, c: nat)
    requires |ring| == FrameStart(half, size) && pointer + 2 * n <= size && j < n && c < half
    requires Slot(DATA, quadlets, j) + 2 * c + 1 < |packet|
    requires var frames := EncodeFrames(DualFrames(half, ring, size, pointer, n)); var b := Slot(DATA, quadlets, j);
             packet[b + 2 * c] == frames[j][c] && packet[b + 2 * c + 1] == frames[j][c + half]
    ensures StandSideBySide(quadlets, half, ring, size, pointer, packet, j, c)
  {
    hide DualFrames, Carries;
    DualFrameIs(half, ring, size, pointer, n, j, c);
    EncodedCarries(Sample(ring, half, pointer + 2 * j, c));
    EncodedCarries(Sample(ring, half, pointer + 2 * j + 1, c));
  }

  /** The frames of a packet with whole units in front of the end of the ring. */
  lemma DualNextFrames(o: Output, pointer: nat, k: nat)
    requires IsPlayable(o, pointer) && IsDualOutput(o)
    ensures var r, n := o.pcm.value, BlocksOf(o.blocking, o.sfc, k);
            && pointer + 2 * n <= r.size && |r.samples| == FrameStart(r.channels, r.size)
            && NextFrames(o, pointer, k) == EncodeFrames(DualFrames(r.channels, r.samples, r.size, pointer, n))
  {
    hide Frames, BlocksOf, EncodeFrames;
    BlocksFit(o.blocking, o.sfc, k);
    WholeUnit(o.pcm.value.size, pointer);
  }

  /** In every run of the callback for a dual wire stream, whatever the port bytes
      and wherever the schedule stands, each packet shows a device the samples of
      the next frames side by side. */
  lemma DualRun(o: Output, packets: seq<seq<Quadlet>>, cycle: nat, k: nat, at: Cursor, i: nat, j: nat, c: nat)
    requires IsPlayable(o, at.pointer) && IsDualOutput(o) && AreOutPackets(o, packets, cycle, k, at) && i < |packets|
    requires j < BlocksOf(o.blocking, o.sfc, k + i) && c < o.pcm.value.channels
    ensures var r := o.pcm.value; var pointer := CursorAfter(o, at, k, i).pointer;
            && pointer + 2 * j + 1 < r.size && Slot(DATA, o.layout.quadlets, j) + 2 * c + 1 < |packets[i]|
            && StandSideBySide(o.layout.quadlets, r.channels, r.samples, r.size, pointer, packets[i], j, c)
  {
    hide IsPacket, AreOutPackets, StandSideBySide;
    OutPacketAt(o, packets, cycle, k, at, i);
    DualPacketShows(o, packets[i], cycle + i, k + i, CursorAfter(o, at, k, i), j, c);
  }
}
