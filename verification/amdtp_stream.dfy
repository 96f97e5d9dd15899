/** struct amdtp_stream of sound/firewire/amdtp.c: its fields, and the functions
    that run once per packet, in place on the packet and ring buffers. */
module AmdtpStreams {
  import opened AmdtpTiming
  import opened AmdtpMidi
  import opened AmdtpPackets
  import opened PcmBlocks
  import opened AmdtpData
  import opened AmdtpLoopback

  const AMDTP_MAX_CHANNELS_FOR_PCM := 64
  const QUEUE_LENGTH := 48

  /** The part of an ALSA PCM runtime that the streaming code uses. */
  class PcmRuntime {
    const channels: nat
    const bufferSize: nat
    const periodSize: nat
    const dma: array<Quadlet>

    ghost predicate Valid() {
      0 < periodSize <= bufferSize && dma.Length == FrameStart(channels, bufferSize)
    }

    constructor (channels: nat, bufferSize: nat, periodSize: nat)
      requires 0 < periodSize <= bufferSize
      ensures Valid() && fresh(dma)
      ensures this.channels == channels && this.bufferSize == bufferSize && this.periodSize == periodSize
    {
      this.channels, this.bufferSize, this.periodSize := channels, bufferSize, periodSize;
      FrameStartIsProduct(channels, bufferSize);
      dma := new Quadlet[bufferSize * channels](_ => 0);
    }
  }

  function NextIndex(index: int): int {
    if index + 1 >= QUEUE_LENGTH then 0 else index + 1
  }

  /** The packet queue has 48 slots, which are used in turn. */
  lemma IndexGoesRound(index: nat)
    requires index < 48
    ensures NextIndex(index) == (index + 1) % 48
  {
  }

  /** frames_to_bytes, in samples. */
  method FrameOffset(channels: nat, f: nat) returns (r: nat)
    ensures r == FrameStart(channels, f)
  {
    FrameStartIsProduct(channels, f);
    r := f * channels;
  }

  // ---------------------------------------------------------------------
  // What an output stream sends
  // ---------------------------------------------------------------------

  /** A playback ring of `size` frames. */
  datatype Ring = Ring(samples: seq<Quadlet>, size: nat, channels: nat)

  /** What determines the packets of a stream that makes its own timestamps;
      `double` is for two PCM frames in a data block. */
  datatype Output =
    Output(blocking: bool, sfc: Sfc, transferDelay: nat, nodeField: NodeField, layout: Layout, double: bool,
           pcm: Option<Ring>)

  /** PCM frames in n data blocks. */
  function UnitsOf(double: bool, n: nat): nat { if double then 2 * n else n }

  /** The ring's parameters suit the stream: one frame has the channels of a block,
      and the ring is not too small; or it has half of them, and the PCM
      constraints keep whole packets in front of the end of the ring. */
  predicate Suits(double: bool, blocking: bool, sfc: Sfc, layoutChannels: nat, channels: nat, size: nat) {
    if double then layoutChannels == 2 * channels && blocking && SytInterval(sfc) == 16 && size % 32 == 0
    else layoutChannels == channels && SytInterval(sfc) <= size
  }

  predicate PointerOk(double: bool, size: nat, pointer: nat) { pointer < size && (double ==> pointer % 32 == 0) }

  ghost predicate IsPlayable(o: Output, pointer: nat) {
    o.pcm.Some? ==>
      var r := o.pcm.value;
      && |r.samples| == FrameStart(r.channels, r.size)
      && Suits(o.double, o.blocking, o.sfc, o.layout.channels, r.channels, r.size)
      && PointerOk(o.double, r.size, pointer)
  }

  /** A transfer of any number of blocks that a packet may have stays in the ring. */
  lemma TransferFits(double: bool, blocking: bool, sfc: Sfc, layoutChannels: nat, channels: nat, size: nat,
                     pointer: nat, n: nat)
    requires Suits(double, blocking, sfc, layoutChannels, channels, size) && PointerOk(double, size, pointer)
    requires n <= SytInterval(sfc)
    ensures UnitsOf(double, n) <= size
    ensures Fits(FrameStart(channels, size), FrameStart(channels, pointer), size - pointer, layoutChannels, n)
  {
    if double {
      WholeUnit(size, pointer);
      DualFits(channels, size, pointer, n);
    } else {
      RingFits(pointer, size, channels, n);
    }
  }

  lemma WholeUnit(size: nat, pointer: nat)
    requires size % 32 == 0 && pointer % 32 == 0 && pointer < size
    ensures pointer + 32 <= size
    ensures NextPointer(pointer, size, 32) % 32 == 0
  {
  }

  /** The pointer stays in order from packet to packet of the schedule. */
  lemma PointerStaysOk(double: bool, blocking: bool, sfc: Sfc, layoutChannels: nat, channels: nat, size: nat,
                       pointer: nat, k: nat)
    requires Suits(double, blocking, sfc, layoutChannels, channels, size) && PointerOk(double, size, pointer)
    ensures PointerOk(double, size, NextPointer(pointer, size, UnitsOf(double, BlocksOf(blocking, sfc, k))))
  {
    BlocksFit(blocking, sfc, k);
    if double {
      BlockingSizes(sfc, k);
      WholeUnit(size, pointer);
    }
  }

  lemma BlockingSizes(sfc: Sfc, k: nat)
    requires SytInterval(sfc) == 16
    ensures BlocksOf(true, sfc, k) == 0 || BlocksOf(true, sfc, k) == 16
  {
  }

  /** The PCM of packet k: the next frames of the ring, from `pointer` on, or silence. */
  ghost function NextFrames(o: Output, pointer: nat, k: nat): (r: seq<seq<Quadlet>>)
    requires IsPlayable(o, pointer)
    ensures |r| == BlocksOf(o.blocking, o.sfc, k) && forall i :: 0 <= i < |r| ==> |r[i]| == o.layout.channels
  {
    var n := BlocksOf(o.blocking, o.sfc, k);
    if o.pcm.None? then AmdtpData.Silence(o.layout.channels, n)
    else
      var r := o.pcm.value;
      BlocksFit(o.blocking, o.sfc, k);
      TransferFits(o.double, o.blocking, o.sfc, o.layout.channels, r.channels, r.size, pointer, n);
      EncodeFrames(Frames(r.samples, FrameStart(r.channels, pointer), r.size - pointer, o.layout.channels, n))
  }

  /** What the quadlets of a packet with n blocks say to a receiver. */
  datatype Shown =
    | Malformed
    | Shown(length: nat, node: nat, blockQuadlets: nat, dbc: nat, format: nat, rate: nat, syt: nat,
            frames: seq<seq<Quadlet>>, midi: seq<seq<Quadlet>>)

  ghost function Show(l: Layout, packet: seq<Quadlet>, n: nat): Shown {
    if DATA <= |packet| && Slot(DATA, l.quadlets, n) <= |packet|
    then Shown(|packet|, SidField(packet[0]) * 0x100_0000, DbsField(packet[0]), DbcField(packet[0]),
               FmtField(packet[1]), FdfField(packet[1]), SytOf(packet[1]), GetPcm(l, packet, n),
               if l.midiPorts > 0 then GetMidi(l, packet, n) else [])
    else Malformed
  }

  /** Where the stream stands in the ring, and its MIDI ports. */
  datatype Cursor = Cursor(pointer: nat, ports: Ports)

  /** The ports and the MIDI quadlets of packet k. */
  ghost function NextMidi(o: Output, ports: Ports, k: nat): (Ports, seq<Quadlet>) {
    FillMidi(o.sfc, TotalBlocks(o.blocking, o.sfc, k) % 0x100, ports, BlocksOf(o.blocking, o.sfc, k))
  }

  /** Packet k since the start, sent in `cycle`, by the exact schedule: its length, node,
      block size, block counter, format, rate code, timestamp, frames and MIDI
      quadlets. */
  ghost function Scheduled(o: Output, cycle: nat, k: nat, at: Cursor): Shown
    requires IsPlayable(o, at.pointer)
  {
    Shown(Slot(DATA, o.layout.quadlets, BlocksOf(o.blocking, o.sfc, k)), o.nodeField, o.layout.quadlets,
          TotalBlocks(o.blocking, o.sfc, k) % 0x100, 0x10, o.sfc,
          SytField(SytAfter(o.sfc, k + 1).last, o.transferDelay, cycle),
          NextFrames(o, at.pointer, k), if o.layout.midiPorts > 0 then Singles(NextMidi(o, at.ports, k).1) else [])
  }

  ghost predicate IsPacket(o: Output, packet: seq<Quadlet>, cycle: nat, k: nat, at: Cursor)
    requires IsPlayable(o, at.pointer)
  {
    Show(o.layout, packet, BlocksOf(o.blocking, o.sfc, k)) == Scheduled(o, cycle, k, at)
  }

  ghost function NextPorts(o: Output, ports: Ports, k: nat): Ports {
    if o.layout.midiPorts > 0 then NextMidi(o, ports, k).0 else ports
  }

  /** The cursor behind packet k. */
  ghost function NextCursor(o: Output, at: Cursor, k: nat): (r: Cursor)
    requires IsPlayable(o, at.pointer)
    ensures IsPlayable(o, r.pointer)
  {
    if o.pcm.None? then Cursor(at.pointer, NextPorts(o, at.ports, k))
    else
      var r := o.pcm.value;
      PointerStaysOk(o.double, o.blocking, o.sfc, o.layout.channels, r.channels, r.size, at.pointer, k);
      Cursor(NextPointer(at.pointer, r.size, UnitsOf(o.double, BlocksOf(o.blocking, o.sfc, k))),
             NextPorts(o, at.ports, k))
  }

  /** The cursor i packets after packet k. */
  ghost function CursorAfter(o: Output, at: Cursor, k: nat, i: nat): (r: Cursor)
    requires IsPlayable(o, at.pointer)
    ensures IsPlayable(o, r.pointer)
  {
    if i == 0 then at else NextCursor(o, CursorAfter(o, at, k, i - 1), k + i - 1)
  }

  /** Consecutive packets from packet k on, in consecutive cycles, which carry
      consecutive frames and the bytes of consecutive tests of the ports. */
  ghost predicate AreOutPackets(o: Output, packets: seq<seq<Quadlet>>, cycle: nat, k: nat, at: Cursor)
    requires IsPlayable(o, at.pointer)
    decreases |packets|
  {
    packets != [] ==>
      var n := |packets| - 1;
      && AreOutPackets(o, packets[..n], cycle, k, at)
      && IsPacket(o, packets[n], cycle + n, k + n, CursorAfter(o, at, k, n))
  }

  lemma {:induction false} OutPacketAt(o: Output, packets: seq<seq<Quadlet>>, cycle: nat, k: nat, at: Cursor, i: nat)
    requires IsPlayable(o, at.pointer) && AreOutPackets(o, packets, cycle, k, at) && i < |packets|
    ensures IsPacket(o, packets[i], cycle + i, k + i, CursorAfter(o, at, k, i))
    decreases |packets|
  {
    hide IsPacket;
    if i < |packets| - 1 {
      OutPacketAt(o, packets[..|packets| - 1], cycle, k, at, i);
    }
  }

  class AmdtpStream {
    // Configuration. The fields pcm_channels, midi_ports, data_block_quadlets,
    // pcm_positions and midi_position make up the layout.
    const blocking: bool
    const flags: Flags
    var sfc: Sfc
    var layout: Layout
    var sytInterval: nat
    var transferDelay: nat
    var sourceNodeIdField: NodeField
    var doublePcmFrames: bool
    var txDbcInterval: nat
    var configured: bool                // data_block_quadlets is at least 1; or the layout means nothing

    // State.
    var running: bool                   // there is an isochronous context
    var packetIndex: int
    var dataBlockCounter: nat
    var dataBlockState: nat
    var lastSytOffset: nat
    var sytOffsetState: nat
    var pcm: PcmRuntime?
    var pcmBufferPointer: nat
    var pcmPeriodPointer: nat
    var periodsElapsed: nat             // calls of the period tasklet
    var ports: Ports                    // midi[] and midi_fifo_used[]
    var midiReceived: seq<seq<Byte>>    // bytes handed to the input substreams

    function TheSetup(): Setup
      reads this`layout, this`sfc, this`sourceNodeIdField, this`txDbcInterval
    {
      Setup(layout, sfc, sourceNodeIdField, txDbcInterval)
    }

    ghost function Timing(): SytState
      reads this`lastSytOffset, this`sytOffsetState
    {
      SytState(lastSytOffset, sytOffsetState)
    }

    /** Data blocks never exceed SYT_INTERVAL in the states that occur. */
    ghost predicate BlockStateOk()
      reads this`sfc, this`dataBlockState
    {
      if IsBase44100(sfc) then dataBlockState < PhaseCount(sfc) else dataBlockState == InitialBlockState(sfc)
    }

    /** What holds from amdtp_stream_init on. */
    ghost predicate Initialized()
      reads this
    {
      && (configured ==> sytInterval == SytInterval(sfc))
      && (running ==> configured && BlockStateOk())
      && (dataBlockCounter < 0x100 || dataBlockCounter == DBC_UNKNOWN)
      && -1 <= packetIndex < QUEUE_LENGTH
      && |midiReceived| == PORTS
    }

    /** What holds while packets are handled. */
    ghost predicate Valid()
      reads this
    {
      Initialized() && configured && BlockStateOk()
    }

    /** amdtp_stream_init, on a structure that is all zeros. */
    constructor (blocking: bool, flags: Flags)
      ensures Initialized() && !configured && !running && this.blocking == blocking && this.flags == flags
      ensures sfc == sytInterval == transferDelay == txDbcInterval == packetIndex == dataBlockCounter == 0
      ensures !doublePcmFrames && pcm == null && sourceNodeIdField == 0
      ensures forall port :: 0 <= port < PORTS ==> ports[port] == Port(0, None) && midiReceived[port] == []
    {
      this.blocking, this.flags := blocking, flags;
      configured, running, doublePcmFrames, pcm := false, false, false, null;
      sfc, layout, sytInterval, transferDelay := 0, Layout(1, 0, [], 0, 0), 0, 0;
      sourceNodeIdField, txDbcInterval, packetIndex, dataBlockCounter := 0, 0, 0, 0;
      dataBlockState, lastSytOffset, sytOffsetState := 0, 0, 0;
      pcmBufferPointer, pcmPeriodPointer, periodsElapsed := 0, 0, 0;
      ports := seq(PORTS, _ => Port(0, None));
      midiReceived := seq(PORTS, _ => []);
    }

    /** PCM frames per data block: two with the DICE dual wire quirk. */
    function Units(n: nat): nat
      reads this`doublePcmFrames
    {
      UnitsOf(doublePcmFrames, n)
    }

    /** Frames since the start of the PCM substream, in whole reported periods
        and in the period pointer. */
    ghost function FramesCounted(): nat
      reads this`pcm, this`periodsElapsed, this`pcmPeriodPointer
    {
      if pcm == null then 0 else FrameStart(pcm.periodSize, periodsElapsed) + pcmPeriodPointer
    }

    /** Reported periods after so many more frames: at most one is reported for a
        packet. */
    ghost function PeriodsAfter(frames: nat): nat
      reads this`pcm, this`periodsElapsed, this`pcmPeriodPointer
    {
      if pcm != null && pcmPeriodPointer + frames >= pcm.periodSize then periodsElapsed + 1 else periodsElapsed
    }

    /** What the transfer functions assume about the ring, for n blocks: the
        pointer walk stays inside it, and one wrap of the pointer is enough. */
    ghost predicate PcmReady(n: nat)
      reads this`doublePcmFrames, this`pcm, this`pcmBufferPointer, this`layout
    {
      pcm != null ==>
        && pcm.Valid() && pcmBufferPointer < pcm.bufferSize && Units(n) <= pcm.bufferSize
        && Fits(pcm.dma.Length, FrameStart(pcm.channels, pcmBufferPointer), pcm.bufferSize - pcmBufferPointer,
                layout.channels, n)
    }

    /** The frames that a transfer of n blocks takes from the ring. */
    ghost function RingFrames(n: nat): (r: seq<seq<Quadlet>>)
      requires pcm != null && PcmReady(n)
      reads this`doublePcmFrames, this`pcm, this`pcmBufferPointer, this`layout, if pcm != null then {pcm.dma} else {}
      ensures |r| == n && forall i :: 0 <= i < n ==> |r[i]| == layout.channels
    {
      Frames(pcm.dma[..], FrameStart(pcm.channels, pcmBufferPointer), pcm.bufferSize - pcmBufferPointer,
             layout.channels, n)
    }

    /** The ring once the PCM of n received blocks has been stored. */
    ghost function RingAfter(buffer: seq<Quadlet>, n: nat): seq<Quadlet>
      requires pcm != null && PcmReady(n) && Slot(DATA, layout.quadlets, n) <= |buffer|
      reads this`doublePcmFrames, this`pcm, this`pcmBufferPointer, this`layout, if pcm != null then {pcm.dma} else {}
    {
      Store(pcm.dma[..], FrameStart(pcm.channels, pcmBufferPointer), pcm.bufferSize - pcmBufferPointer, layout.channels,
            DecodeFrames(GetPcm(layout, buffer, n)), n)
    }

    // -------------------------------------------------------------------
    // Configuration and start
    // -------------------------------------------------------------------

    method FindRate(rate: nat) returns (s: nat)
      ensures s <= |RATES| == 7
      ensures if s < |RATES| then RATES[s] == rate else rate !in RATES
    {
      s := 0;
      while s < |RATES|
        invariant s <= |RATES| && rate !in RATES[..s]
      {
        if RATES[s] == rate {
          return;
        }
        s := s + 1;
      }
      assert RATES[..s] == RATES;
    }

    /** amdtp_stream_set_parameters; false when the source only warns. */
    method SetParameters(rate: nat, channels: nat, midi: nat) returns (ok: bool)
      requires Initialized()
      modifies this`sfc, this`layout, this`sytInterval, this`transferDelay, this`configured
      ensures ok <==> !running && rate in RATES && channels <= 64 && midi <= 8
      ensures Initialized() && (!ok ==> unchanged(this))
      ensures ok ==>
                && Rate(sfc) == rate && sytInterval == SytInterval(sfc) && configured == (channels + midi > 0)
                && transferDelay == TRANSFER_DELAY_TICKS - TICKS_PER_CYCLE
                                    + if blocking then BlockingDelay(sfc) else 0
      ensures ok && !configured ==> layout == old(layout)
      ensures ok && configured ==>
                && layout.channels == channels && layout.midiPorts == midi
                && layout.quadlets == channels + (if midi > 0 then 1 else 0)
                && layout.positions[..channels] == seq(channels, c => c) && layout.midiPosition == channels
    {
      var midiChannels := (midi + 7) / 8;
      ok := false;
      if running || channels > AMDTP_MAX_CHANNELS_FOR_PCM || midiChannels > 1 {
        return;
      }
      var s := FindRate(rate);
      if s == |RATES| {
        return;
      }
      sfc := s;
      sytInterval := SytInterval(s);
      transferDelay := TRANSFER_DELAY_TICKS - TICKS_PER_CYCLE;
      if blocking {
        transferDelay := transferDelay + BlockingDelay(s);
      }
      configured := channels + midiChannels >= 1;
      if configured {
        var positions := seq(AMDTP_MAX_CHANNELS_FOR_PCM, c => c);
        DefaultLayout(channels, midi, positions);
        layout := Layout(channels + midiChannels, channels, positions, midi, channels);
      }
      ok := true;
    }

    /** amdtp_stream_start: refused while running and without any channel; otherwise
        the counters are set, and the context starts if the bus lets it. */
    method Start(inStream: bool, started: bool) returns (ok: bool)
      requires Initialized()
      modifies this`dataBlockCounter, this`dataBlockState, this`sytOffsetState, this`lastSytOffset, this`packetIndex,
               this`running
      ensures ok == (!old(running) && configured && started) && running == (old(running) || ok) && Initialized()
      ensures old(running) || !configured ==> unchanged(this)
      ensures ok ==> packetIndex == 0 && Valid()
      ensures !old(running) && configured ==>
                && dataBlockCounter == (if inStream && flags.skipInitDbcCheck then DBC_UNKNOWN else 0)
                && Timing() == SytAfter(sfc, 0) && dataBlockState == BlockStateAfter(blocking, sfc, 0)
    {
      if running || !configured {
        return false;
      }
      dataBlockCounter := if inStream && flags.skipInitDbcCheck then DBC_UNKNOWN else 0;
      dataBlockState := InitialBlockState(sfc);
      sytOffsetState := InitialSyt(sfc).state;
      lastSytOffset := TICKS_PER_CYCLE;
      packetIndex := 0;
      running := started;
      ok := started;
      InitialStateOk(sfc);
    }

    // -------------------------------------------------------------------
    // Timing
    // -------------------------------------------------------------------

    method CalculateDataBlocks() returns (dataBlocks: nat)
      requires Valid()
      modifies this`dataBlockState
      ensures Valid() && dataBlocks == DataBlocks(blocking, sfc, old(dataBlockState)) <= sytInterval
      ensures dataBlockState == BlockStep(blocking, sfc, old(dataBlockState))
    {
      if blocking {
        dataBlocks := sytInterval;
      } else if !IsBase44100(sfc) {
        dataBlocks := dataBlockState;
      } else {
        var phase := dataBlockState;
        if sfc == 1 {
          dataBlocks := 5 + if (phase % 2 == 1) != (phase == 0 || phase >= 40) then 1 else 0;
        } else {
          dataBlocks := 11 * (sfc / 2) + if phase == 0 then 1 else 0;
        }
        phase := phase + 1;
        if phase >= PhaseCount(sfc) {
          phase := 0;
        }
        dataBlockState := phase;
      }
    }

    method CalculateSyt(cycle: nat) returns (syt: nat)
      modifies this`lastSytOffset, this`sytOffsetState
      ensures Timing() == SytStep(sfc, old(Timing()))
      ensures syt == SytField(lastSytOffset, transferDelay, cycle) < 0x1_0000
    {
      hide IsBase44100;
      var offset;
      if lastSytOffset < TICKS_PER_CYCLE {
        if !IsBase44100(sfc) {
          offset := lastSytOffset + sytOffsetState;
        } else {
          var phase := sytOffsetState;
          var index := phase % 13;
          offset := lastSytOffset;
          offset := offset + 1386 + if (index != 0 && index % 4 == 0) || phase == 146 then 1 else 0;
          phase := phase + 1;
          if phase >= 147 {
            phase := 0;
          }
          sytOffsetState := phase;
        }
      } else {
        offset := lastSytOffset - TICKS_PER_CYCLE;
      }
      lastSytOffset := offset;
      if offset < TICKS_PER_CYCLE {
        offset := offset + transferDelay;
        syt := (cycle + offset / TICKS_PER_CYCLE) * 0x1000;
        syt := (syt + offset % TICKS_PER_CYCLE) % 0x1_0000;
      } else {
        syt := SYT_NO_INFO;
      }
    }

    // -------------------------------------------------------------------
    // PCM transfer
    // -------------------------------------------------------------------

    /** The inner loop of amdtp_write_s32. */
    method WriteFrame(buffer: array<Quadlet>, b: nat, ring: seq<Quadlet>, src: nat)
      requires src + layout.channels <= |ring|
      requires layout.channels <= |layout.positions|
      requires forall c :: 0 <= c < layout.channels ==> b + layout.positions[c] < buffer.Length
      modifies buffer
      ensures buffer[..] == PutBlock(old(buffer[..]), b, layout.positions,
                                     EncodeFrame(ring[src..src + layout.channels]), layout.channels)
    {
      ghost var e := EncodeFrame(ring[src..src + layout.channels]);
      var c := 0;
      while c < layout.channels
        invariant c <= layout.channels
        invariant buffer[..] == PutBlock(old(buffer[..]), b, layout.positions, e, c)
      {
        buffer[b + layout.positions[c]] := EncodeSample(ring[src + c]);
        c := c + 1;
      }
    }

    /** The transfer of n blocks stands before block i: `now` is the packet. */
    ghost predicate Writing(area: seq<Quadlet>, ring: seq<Quadlet>, start: nat, wrap: nat, n: nat, i: nat,
                            now: seq<Quadlet>, b: nat, src: nat)
      reads this`layout
    {
      && wrap > 0 && i <= n && Fits(|ring|, start, wrap, layout.channels, n)
      && b == Slot(DATA, layout.quadlets, i) <= Slot(DATA, layout.quadlets, n) <= |area|
      && src == Source(start, wrap, layout.channels, i)
      && now == PutPcm(layout, area, EncodeFrames(Frames(ring, start, wrap, layout.channels, n)), i)
    }

    /** One pass of amdtp_write_s32's outer loop. */
    method WriteBlock(buffer: array<Quadlet>, b: nat, ring: seq<Quadlet>, src: nat, remainingFrames: int,
                      ghost area: seq<Quadlet>, ghost start: nat, ghost wrap: nat, ghost n: nat, ghost i: nat)
      returns (nextB: nat, nextSrc: nat)
      requires Writing(area, ring, start, wrap, n, i, buffer[..], b, src) && i < n && remainingFrames == wrap - i
      modifies buffer
      ensures Writing(area, ring, start, wrap, n, i + 1, buffer[..], nextB, nextSrc)
    {
      hide PutBlock, Source, PutPcm, Frames, EncodeFrames;
      SlotStep(DATA, layout.quadlets, i, n);
      WalkStep(|ring|, start, wrap, layout.channels, n, i);
      ghost var e := EncodeFrames(Frames(ring, start, wrap, layout.channels, n));
      PutPcmNext(layout, area, e, i);
      assert e[i] == EncodeFrame(ring[src..src + layout.channels]);
      hide PutBlock, EncodeFrame, Fits, Source, Slot;
      WriteFrame(buffer, b, ring, src);
      nextB := b + layout.quadlets;
      nextSrc := if remainingFrames - 1 == 0 then 0 else src + layout.channels;
    }

    /** amdtp_write_s32 on the ring's contents. */
    method WriteFrames(buffer: array<Quadlet>, ring: seq<Quadlet>, start: nat, wrap: nat, n: nat)
      requires wrap > 0 && Fits(|ring|, start, wrap, layout.channels, n)
               && Slot(DATA, layout.quadlets, n) <= buffer.Length
      modifies buffer
      ensures buffer[..] ==
              PutPcm(layout, old(buffer[..]), EncodeFrames(Frames(ring, start, wrap, layout.channels, n)), n)
    {
      ghost var area := buffer[..];
      var src: nat, b: nat := start, DATA;
      var remainingFrames: int := wrap;    // 0 at most once: it would take 2^32 blocks to come round
      var i := 0;
      SlotOrder(DATA, layout.quadlets, 0, n + 1);
      PutPcmNothing(layout, area, EncodeFrames(Frames(ring, start, wrap, layout.channels, n)));
      hide PutPcm, Frames, EncodeFrames;
      while i < n
        invariant i <= n && remainingFrames == wrap - i
        invariant Writing(area, ring, start, wrap, n, i, buffer[..], b, src)
      {
        b, src := WriteBlock(buffer, b, ring, src, remainingFrames, area, start, wrap, n, i);
        remainingFrames := remainingFrames - 1;
        i := i + 1;
      }
    }

    method WriteS32(buffer: array<Quadlet>, n: nat)
      requires pcm != null && buffer != pcm.dma && PcmReady(n) && Slot(DATA, layout.quadlets, n) <= buffer.Length
      modifies buffer
      ensures buffer[..] == PutPcm(layout, old(buffer[..]), EncodeFrames(old(RingFrames(n))), n)
    {
      var start := FrameOffset(pcm.channels, pcmBufferPointer);
      WriteFrames(buffer, pcm.dma[..], start, pcm.bufferSize - pcmBufferPointer, n);
    }

    /** amdtp_fill_pcm_silence. */
    method FillPcmSilence(buffer: array<Quadlet>, n: nat)
      requires Slot(DATA, layout.quadlets, n) <= buffer.Length
      modifies buffer
      ensures buffer[..] == PutPcm(layout, old(buffer[..]), AmdtpData.Silence(layout.channels, n), n)
    {
      ghost var e := AmdtpData.Silence(layout.channels, n);
      var b, i := DATA, 0;
      SlotOrder(DATA, layout.quadlets, 0, n + 1);
      while i < n
        invariant i <= n && b == Slot(DATA, layout.quadlets, i) <= buffer.Length
        invariant buffer[..] == PutBlocks(old(buffer[..]), DATA, layout.quadlets, layout.positions, layout.channels, e,
                                          i)
      {
        SlotOrder(DATA, layout.quadlets, i, n);
        SilenceFrame(buffer, b, e[i]);
        b := b + layout.quadlets;
        i := i + 1;
      }
    }

    /** Its inner loop; `e` is a silent frame. */
    method SilenceFrame(buffer: array<Quadlet>, b: nat, ghost e: seq<Quadlet>)
      requires layout.channels <= |layout.positions|
      requires forall c :: 0 <= c < layout.channels ==> b + layout.positions[c] < buffer.Length
      requires |e| == layout.channels && forall c :: 0 <= c < |e| ==> e[c] == SILENCE
      modifies buffer
      ensures buffer[..] == PutBlock(old(buffer[..]), b, layout.positions, e, layout.channels)
    {
      var c := 0;
      while c < layout.channels
        invariant c <= layout.channels && buffer[..] == PutBlock(old(buffer[..]), b, layout.positions, e, c)
      {
        buffer[b + layout.positions[c]] := SILENCE;
        c := c + 1;
      }
    }

    /** The inner loop of amdtp_read_s32. */
    method ReadFrame(buffer: seq<Quadlet>, b: nat, dst: nat)
      requires pcm != null && dst + layout.channels <= pcm.dma.Length
      requires layout.channels <= |layout.positions|
      requires forall c :: 0 <= c < layout.channels ==> b + layout.positions[c] < |buffer|
      modifies pcm.dma
      ensures var was := old(pcm.dma[..]);
              pcm.dma[..] == was[..dst] + DecodeFrame(GetBlock(buffer, b, layout.positions, layout.channels))
                             + was[dst + layout.channels..]
    {
      ghost var d, was := DecodeFrame(GetBlock(buffer, b, layout.positions, layout.channels)), pcm.dma[..];
      var c := 0;
      while c < layout.channels
        invariant c <= layout.channels && pcm.dma[..] == was[..dst] + d[..c] + was[dst + c..]
      {
        ghost var before: seq<Quadlet> := pcm.dma[..];
        SpliceNext(was, dst, d, c);
        pcm.dma[dst + c] := DecodeSample(buffer[b + layout.positions[c]]);
        assert pcm.dma[..] == before[dst + c := d[c]];
        c := c + 1;
      }
    }

    /** One pass of amdtp_read_s32's outer loop: block i of the first n. */
    method ReadBlock(buffer: seq<Quadlet>, b: nat, dst: nat, remainingFrames: int, ghost was: seq<Quadlet>,
                     ghost start: nat, ghost wrap: nat, ghost n: nat, ghost i: nat)
      returns (nextB: nat, nextDst: nat)
      requires pcm != null && Slot(DATA, layout.quadlets, n) <= |buffer| && i < n && wrap > 0
               && remainingFrames == wrap - i
      requires b == Slot(DATA, layout.quadlets, i) && dst == Source(start, wrap, layout.channels, i)
      requires |was| == pcm.dma.Length && Fits(|was|, start, wrap, layout.channels, n)
      requires pcm.dma[..] == Store(was, start, wrap, layout.channels, DecodeFrames(GetPcm(layout, buffer, n)), i)
      modifies pcm.dma
      ensures nextB == Slot(DATA, layout.quadlets, i + 1) && nextDst == Source(start, wrap, layout.channels, i + 1)
      ensures pcm.dma[..] == Store(was, start, wrap, layout.channels, DecodeFrames(GetPcm(layout, buffer, n)), i + 1)
    {
      SlotOrder(DATA, layout.quadlets, i, n);
      GetBlocksAt(buffer, DATA, layout.quadlets, layout.positions, layout.channels, n, i);
      ReadFrame(buffer, b, dst);
      nextB := b + layout.quadlets;
      nextDst := if remainingFrames - 1 == 0 then 0 else dst + layout.channels;
    }

    /** The loops of amdtp_read_s32. */
    method ReadFrames(buffer: seq<Quadlet>, start: nat, wrap: nat, n: nat)
      requires pcm != null && Fits(pcm.dma.Length, start, wrap, layout.channels, n)
               && Slot(DATA, layout.quadlets, n) <= |buffer|
      requires wrap > 0
      modifies pcm.dma
      ensures pcm.dma[..] == Store(old(pcm.dma[..]), start, wrap, layout.channels,
                                   DecodeFrames(GetPcm(layout, buffer, n)), n)
    {
      ghost var was := pcm.dma[..];
      var dst: nat, b: nat, remainingFrames: int := start, DATA, wrap;
      var i := 0;
      while i < n
        invariant i <= n && remainingFrames == wrap - i
        invariant dst == Source(start, wrap, layout.channels, i) && b == Slot(DATA, layout.quadlets, i)
        invariant pcm.dma[..] == Store(was, start, wrap, layout.channels, DecodeFrames(GetPcm(layout, buffer, n)), i)
      {
        b, dst := ReadBlock(buffer, b, dst, remainingFrames, was, start, wrap, n, i);
        remainingFrames := remainingFrames - 1;
        i := i + 1;
      }
    }

    method ReadS32(buffer: seq<Quadlet>, n: nat)
      requires pcm != null && PcmReady(n) && Slot(DATA, layout.quadlets, n) <= |buffer|
      modifies pcm.dma
      ensures pcm.dma[..] == old(RingAfter(buffer, n))
    {
      var start := FrameOffset(pcm.channels, pcmBufferPointer);
      ReadFrames(buffer, start, pcm.bufferSize - pcmBufferPointer, n);
    }

    /** update_pcm_pointers. Every periodSize frames the period tasklet is
        scheduled exactly once. */
    method UpdatePcmPointers(n: nat)
      requires pcm != null && pcm.Valid()
      modifies this`pcmBufferPointer, this`pcmPeriodPointer, this`periodsElapsed
      ensures pcmBufferPointer == NextPointer(old(pcmBufferPointer), pcm.bufferSize, Units(n))
      ensures old(pcmBufferPointer) < pcm.bufferSize ==>
                (pcmBufferPointer < pcm.bufferSize <==> old(pcmBufferPointer) + Units(n) < 2 * pcm.bufferSize)
      ensures FramesCounted() == old(FramesCounted()) + Units(n) && periodsElapsed == old(PeriodsAfter(Units(n)))
      ensures old(pcmPeriodPointer) < pcm.periodSize && Units(n) <= pcm.periodSize ==> pcmPeriodPointer < pcm.periodSize
    {
      var frames := Units(n);
      var ptr := pcmBufferPointer + frames;
      if ptr >= pcm.bufferSize {
        ptr := ptr - pcm.bufferSize;
      }
      pcmBufferPointer := ptr;
      pcmPeriodPointer := pcmPeriodPointer + frames;
      if pcmPeriodPointer >= pcm.periodSize {
        pcmPeriodPointer := pcmPeriodPointer - pcm.periodSize;
        periodsElapsed := periodsElapsed + 1;
      }
    }

    // -------------------------------------------------------------------
    // MIDI transfer
    // -------------------------------------------------------------------

    /** One port's turn in amdtp_fill_midi: the rate limiter, then a byte. */
    method TransmitMidi(port: nat) returns (sent: Option<Byte>)
      requires port < PORTS
      modifies this`ports
      ensures var (p, b) := TestPort(sfc, old(ports)[port]);
              ports == old(ports)[port := p] && sent == b
    {
      var (used, allowed) := RateLimit(sfc, ports[port].used);
      ports := ports[port := ports[port].(used := used)];
      if allowed && HasByte(ports[port]) {
        sent := Some(ports[port].queue.value[0]);
        ports := ports[port := Port(used + Rate(sfc), Some(ports[port].queue.value[1..]))];
      } else {
        sent := None;
      }
    }

    /** amdtp_fill_midi. */
    method FillMidiBlocks(buffer: array<Quadlet>, n: nat)
      requires layout.midiPorts > 0 && Slot(DATA, layout.quadlets, n) <= buffer.Length
      modifies this`ports, buffer
      ensures var (after, midi) := FillMidi(sfc, dataBlockCounter, old(ports), n);
              ports == after && buffer[..] == PutMidi(layout, old(buffer[..]), midi, n)
    {
      ghost var midi, area := FillMidi(sfc, dataBlockCounter, ports, n).1, buffer[..];
      var b, f := DATA, 0;
      SlotOrder(DATA, layout.quadlets, 0, n + 1);
      while f < n
        invariant f <= n && b == Slot(DATA, layout.quadlets, f) <= |area|
        invariant ports == FillMidi(sfc, dataBlockCounter, old(ports), f).0
        invariant buffer[..] == PutMidi(layout, area, midi, f)
      {
        var port := PortOf(dataBlockCounter, f);
        var sent := None;
        if f < MAX_MIDI_RX_BLOCKS {
          sent := TransmitMidi(port);
        }
        FillMidiAt(sfc, dataBlockCounter, old(ports), n, f);
        PutMidiBlock(buffer, b, MidiQuadlet(sent), area, midi, f);
        b := b + layout.quadlets;
        f := f + 1;
      }
    }

    method PutMidiBlock(buffer: array<Quadlet>, b: nat, q: Quadlet, ghost area: seq<Quadlet>, ghost midi: seq<Quadlet>,
                        ghost f: nat)
      requires layout.midiPorts > 0
      requires f < |midi| && midi[f] == q && Slot(DATA, layout.quadlets, |midi|) <= |area|
      requires b == Slot(DATA, layout.quadlets, f) <= |area| && buffer[..] == PutMidi(layout, area, midi, f)
      modifies buffer
      ensures Slot(DATA, layout.quadlets, f + 1) <= |area| && buffer[..] == PutMidi(layout, area, midi, f + 1)
    {
      SlotOrder(DATA, layout.quadlets, f, |midi|);
      ghost var before := buffer[..];
      buffer[b + layout.midiPosition] := q;
      ghost var single, place := Singles(midi)[f], [layout.midiPosition];
      assert PutBlock(before, b, place, single, 0) == before;
      assert buffer[..] == PutBlock(before, b, place, single, 1);
    }

    // -------------------------------------------------------------------
    // Packets
    // -------------------------------------------------------------------

    /** queue_packet; `queued` is the answer of the isochronous context. */
    method QueuePacket(queued: bool) returns (ok: bool)
      requires 0 <= packetIndex < QUEUE_LENGTH
      modifies this`packetIndex
      ensures ok == queued && packetIndex == if queued then NextIndex(old(packetIndex)) else old(packetIndex)
      ensures queued ==> packetIndex == (old(packetIndex) + 1) % 48
    {
      if queued {
        packetIndex := packetIndex + 1;
        if packetIndex >= QUEUE_LENGTH {
          packetIndex := 0;
        }
      }
      ok := queued;
    }

    /** The frames, as AM824 quadlets, that go into a packet of n blocks. */
    ghost function FramesToSend(n: nat): (r: seq<seq<Quadlet>>)
      requires PcmReady(n)
      reads this`doublePcmFrames, this`pcm, this`pcmBufferPointer, this`layout, if pcm != null then {pcm.dma} else {}
      ensures |r| == n && forall i :: 0 <= i < n ==> |r[i]| == layout.channels
    {
      if pcm != null then EncodeFrames(RingFrames(n)) else AmdtpData.Silence(layout.channels, n)
    }

    /** The two header quadlets and the data blocks. */
    method BuildPacket(buffer: array<Quadlet>, syt: nat, n: nat)
      requires Valid() && dataBlockCounter < 0x100 && syt < 0x1_0000 && PcmReady(n)
               && (pcm != null ==> buffer != pcm.dma)
      requires DATA <= buffer.Length && Slot(DATA, layout.quadlets, n) <= buffer.Length
      modifies this`ports, buffer
      ensures buffer[..] == OutPacket(TheSetup(), old(buffer[..]), dataBlockCounter, syt, old(FramesToSend(n)),
                                      FillMidi(sfc, dataBlockCounter, old(ports), n).1)
      ensures ports == if layout.midiPorts > 0 then FillMidi(sfc, dataBlockCounter, old(ports), n).0 else old(ports)
    {
      hide EncodeFrames, FillMidi, Fits;
      ghost var frames := FramesToSend(n);
      ghost var area: seq<Quadlet> := buffer[..];
      buffer[0] := Header0(sourceNodeIdField, layout.quadlets, dataBlockCounter);
      buffer[1] := Header1(sfc, syt);
      ghost var h0: Quadlet, h1: Quadlet := buffer[0], buffer[1];
      assert buffer[..] == area[0 := h0][1 := h1];
      if pcm != null {
        assert pcm.dma[..] == old(pcm.dma[..]);
        WriteS32(buffer, n);
      } else {
        FillPcmSilence(buffer, n);
      }
      if layout.midiPorts > 0 {
        FillMidiBlocks(buffer, n);
      }
    }

    /** The number of data blocks for a packet with this timestamp. */
    method NextDataBlocks(syt: nat) returns (n: nat)
      requires Valid()
      modifies this`dataBlockState
      ensures BlockStateOk() && n == PacketBlocks(blocking, sfc, old(dataBlockState), syt != SYT_NO_INFO) <= sytInterval
      ensures dataBlockState == PacketBlockStep(blocking, sfc, old(dataBlockState), syt != SYT_NO_INFO)
    {
      n := 0;
      if !blocking || syt != SYT_NO_INFO {
        n := CalculateDataBlocks();
      }
    }

    /** The header and n data blocks, in bytes. */
    method PayloadLength(n: nat) returns (bytes: nat)
      ensures bytes == 4 * Slot(DATA, layout.quadlets, n)
    {
      SlotIsProduct(DATA, layout.quadlets, n);
      bytes := 8 + n * 4 * layout.quadlets;
    }

    /** Queueing a packet of n blocks and moving the PCM pointers; a queueing
        error stops the stream. */
    method FinishPacket(n: nat, queued: bool)
      requires 0 <= packetIndex < QUEUE_LENGTH && PcmReady(n)
      modifies this`packetIndex, this`pcmBufferPointer, this`pcmPeriodPointer, this`periodsElapsed
      ensures packetIndex == if queued then NextIndex(old(packetIndex)) else -1
      ensures pcm != null ==> pcmBufferPointer < pcm.bufferSize
      ensures pcmBufferPointer == if queued && pcm != null
                                  then NextPointer(old(pcmBufferPointer), pcm.bufferSize, Units(n))
                                  else old(pcmBufferPointer)
      ensures FramesCounted() == old(FramesCounted()) + if queued && pcm != null then Units(n) else 0
      ensures periodsElapsed == if queued then old(PeriodsAfter(Units(n))) else old(periodsElapsed)
    {
      var ok := QueuePacket(queued);
      if !ok {
        packetIndex := -1;
        return;
      }
      if pcm != null {
        UpdatePcmPointers(n);
      }
    }

    /** A packet of n blocks: built, counted, queued. */
    method SendPacket(buffer: array<Quadlet>, syt: nat, n: nat, queued: bool) returns (payloadLength: nat)
      requires Valid() && packetIndex >= 0 && syt < 0x1_0000 && dataBlockCounter < 0x100 && PcmReady(n)
               && (pcm != null ==> buffer != pcm.dma)
      requires DATA <= buffer.Length && Slot(DATA, layout.quadlets, n) <= buffer.Length
      modifies this`ports, this`dataBlockCounter, this`packetIndex, this`pcmBufferPointer, this`pcmPeriodPointer,
               this`periodsElapsed, buffer
      ensures buffer[..] == OutPacket(TheSetup(), old(buffer[..]), old(dataBlockCounter), syt, old(FramesToSend(n)),
                                      FillMidi(sfc, old(dataBlockCounter), old(ports), n).1)
      ensures ports == if layout.midiPorts > 0 then FillMidi(sfc, old(dataBlockCounter), old(ports), n).0
                       else old(ports)
      ensures payloadLength == 4 * Slot(DATA, layout.quadlets, n)
      ensures dataBlockCounter == NextDbc(old(dataBlockCounter), n)
      ensures packetIndex == if queued then NextIndex(old(packetIndex)) else -1
      ensures pcm != null ==> pcmBufferPointer < pcm.bufferSize
      ensures pcmBufferPointer == if queued && pcm != null
                                  then NextPointer(old(pcmBufferPointer), pcm.bufferSize, Units(n))
                                  else old(pcmBufferPointer)
      ensures FramesCounted() == old(FramesCounted()) + if queued && pcm != null then Units(n) else 0
      ensures periodsElapsed == if queued then old(PeriodsAfter(Units(n))) else old(periodsElapsed)
    {
      hide OutPacket, FillMidi, FramesToSend, PcmReady;
      BuildPacket(buffer, syt, n);
      dataBlockCounter := NextDbc(dataBlockCounter, n);
      payloadLength := PayloadLength(n);
      FinishPacket(n, queued);
    }

    /** handle_out_packet of a stream that has not failed. */
    method SendNextPacket(buffer: array<Quadlet>, syt: nat, queued: bool) returns (dataBlocks: nat, payloadLength: nat)
      requires Valid() && packetIndex >= 0 && syt < 0x1_0000 && dataBlockCounter < 0x100 && PcmReady(sytInterval)
               && (pcm != null ==> buffer != pcm.dma)
      requires DATA <= buffer.Length && Slot(DATA, layout.quadlets, sytInterval) <= buffer.Length
      modifies this`ports, this`dataBlockState, this`dataBlockCounter, this`packetIndex,
               this`pcmBufferPointer, this`pcmPeriodPointer, this`periodsElapsed, buffer
      ensures BlockStateOk() && (pcm != null ==> pcmBufferPointer < pcm.bufferSize)
      ensures dataBlocks == PacketBlocks(blocking, sfc, old(dataBlockState), syt != SYT_NO_INFO) <= sytInterval
      ensures dataBlockState == PacketBlockStep(blocking, sfc, old(dataBlockState), syt != SYT_NO_INFO)
      ensures dataBlockCounter == NextDbc(old(dataBlockCounter), dataBlocks)
      ensures payloadLength == 4 * Slot(DATA, layout.quadlets, dataBlocks) <= 4 * buffer.Length
      ensures packetIndex == if queued then NextIndex(old(packetIndex)) else -1
      ensures old(PcmReady(dataBlocks)) &&
              buffer[..] == OutPacket(TheSetup(), old(buffer[..]), old(dataBlockCounter), syt,
                                      old(FramesToSend(dataBlocks)),
                                      FillMidi(sfc, old(dataBlockCounter), old(ports), dataBlocks).1)
      ensures ports == if layout.midiPorts > 0 then FillMidi(sfc, old(dataBlockCounter), old(ports), dataBlocks).0
                       else old(ports)
      ensures pcmBufferPointer == if queued && pcm != null
                                  then NextPointer(old(pcmBufferPointer), pcm.bufferSize, Units(dataBlocks))
                                  else old(pcmBufferPointer)
      ensures FramesCounted() == old(FramesCounted()) + if queued && pcm != null then Units(dataBlocks) else 0
      ensures periodsElapsed == if queued then old(PeriodsAfter(Units(dataBlocks))) else old(periodsElapsed)
    {
      hide PacketBlocks, OutPacket, FillMidi, FramesToSend, PcmReady;
      dataBlocks := NextDataBlocks(syt);
      FewerBlocksReady(dataBlocks);
      payloadLength := SendPacket(buffer, syt, dataBlocks, queued);
    }

    /** handle_out_packet; does nothing once the stream has failed. */
    method HandleOutPacket(buffer: array<Quadlet>, syt: nat, queued: bool) returns (dataBlocks: nat, payloadLength: nat)
      requires Valid() && syt < 0x1_0000 && dataBlockCounter < 0x100 && PcmReady(sytInterval)
               && (pcm != null ==> buffer != pcm.dma)
      requires DATA <= buffer.Length && Slot(DATA, layout.quadlets, sytInterval) <= buffer.Length
      modifies this`ports, this`dataBlockState, this`dataBlockCounter, this`packetIndex,
               this`pcmBufferPointer, this`pcmPeriodPointer, this`periodsElapsed, buffer
      ensures Valid() && dataBlockCounter < 0x100 && (pcm != null ==> pcmBufferPointer < pcm.bufferSize)
      ensures old(packetIndex) < 0 ==> unchanged(this) && unchanged(buffer) && dataBlocks == payloadLength == 0
      ensures old(packetIndex) >= 0 ==>
                && dataBlocks == PacketBlocks(blocking, sfc, old(dataBlockState), syt != SYT_NO_INFO) <= sytInterval
                && dataBlockState == PacketBlockStep(blocking, sfc, old(dataBlockState), syt != SYT_NO_INFO)
                && dataBlockCounter == NextDbc(old(dataBlockCounter), dataBlocks)
                && payloadLength == 4 * Slot(DATA, layout.quadlets, dataBlocks) <= 4 * buffer.Length
                && packetIndex == (if queued then NextIndex(old(packetIndex)) else -1)
      ensures old(packetIndex) >= 0 ==>
                && old(PcmReady(dataBlocks))
                && buffer[..] == OutPacket(TheSetup(), old(buffer[..]), old(dataBlockCounter), syt,
                                           old(FramesToSend(dataBlocks)),
                                           FillMidi(sfc, old(dataBlockCounter), old(ports), dataBlocks).1)
      ensures old(packetIndex) >= 0 ==>
                ports == if layout.midiPorts > 0 then FillMidi(sfc, old(dataBlockCounter), old(ports), dataBlocks).0
                         else old(ports)
      ensures pcmBufferPointer == if old(packetIndex) >= 0 && queued && pcm != null
                                  then NextPointer(old(pcmBufferPointer), pcm.bufferSize, Units(dataBlocks))
                                  else old(pcmBufferPointer)
      ensures FramesCounted() ==
              old(FramesCounted()) + if old(packetIndex) >= 0 && queued && pcm != null then Units(dataBlocks) else 0
      ensures periodsElapsed == if old(packetIndex) >= 0 && queued then old(PeriodsAfter(Units(dataBlocks)))
                                else old(periodsElapsed)
    {
      if packetIndex < 0 {
        return 0, 0;
      }
      dataBlocks, payloadLength := SendNextPacket(buffer, syt, queued);
    }

    lemma FewerBlocksReady(n: nat)
      requires PcmReady(sytInterval) && n <= sytInterval
      ensures PcmReady(n)
      ensures Slot(DATA, layout.quadlets, n) <= Slot(DATA, layout.quadlets, sytInterval)
    {
      if n < sytInterval {
        SlotOrder(DATA, layout.quadlets, n, sytInterval);
      }
    }

    /** The blocks of an accepted packet stay in the packet and in the ring. */
    lemma AcceptedIsReady(n: nat, h0: Quadlet, h1: Quadlet, payloadQuadlets: nat, size: nat)
      requires DATA <= size && payloadQuadlets <= size
      requires StaysInPayload(flags, layout.quadlets, h0, h1, payloadQuadlets)
               && PcmReady(OwnBlocks(layout.quadlets, payloadQuadlets))
      requires var r := Receive(flags, dataBlockCounter, layout.quadlets, txDbcInterval, h0, h1, payloadQuadlets);
               r.Accepted? && r.dataBlocks == n
      ensures PcmReady(n) && Slot(DATA, layout.quadlets, n) <= size
    {
      AcceptedFitsIff(flags, dataBlockCounter, layout.quadlets, txDbcInterval, h0, h1, payloadQuadlets);
      SlotIsProduct(DATA, layout.quadlets, n);
      hide Receive, StaysInPayload, OwnBlocks;
    }

    /** The checks of handle_in_packet on the CIP header. */
    method ExamineHeader(h0: Quadlet, h1: Quadlet, payloadQuadlets: nat) returns (r: Reception)
      requires layout.quadlets > 0
      ensures r == Receive(flags, dataBlockCounter, layout.quadlets, txDbcInterval, h0, h1, payloadQuadlets)
    {
      if EohBit(h0) == 1 || EohBit(h1) != 1 || FmtField(h1) != 0x10 {
        return Ignored;
      }
      var dataBlocks := 0;
      if payloadQuadlets >= 3 && FdfField(h1) != 0xff {
        var quadlets := DbsField(h0);
        if quadlets == 0 {
          return Failed;
        }
        if flags.wrongDbs {
          quadlets := layout.quadlets;
        }
        dataBlocks := BlockCount(payloadQuadlets, quadlets);
      }
      var dbc := DbcField(h0);
      if dataBlocks == 0 && flags.emptyHasWrongDbc && dataBlockCounter != DBC_UNKNOWN {
        dbc := dataBlockCounter;
      }
      var lost;
      if (flags.skipDbcZeroCheck && dbc == 0) || dataBlockCounter == DBC_UNKNOWN {
        lost := false;
      } else if !flags.dbcIsEndEvent {
        lost := dbc != dataBlockCounter;
      } else {
        var interval := dataBlocks;
        if dataBlocks > 0 && txDbcInterval > 0 {
          interval := txDbcInterval;
        }
        lost := dbc != NextDbc(dataBlockCounter, interval);
      }
      if lost {
        return Failed;
      }
      r := Accepted(dataBlocks, dbc, if flags.dbcIsEndEvent then dbc else NextDbc(dbc, dataBlocks));
    }

    /** amdtp_pull_midi: each open port gets the bytes from its blocks. */
    method PullMidiBlocks(buffer: seq<Quadlet>, n: nat)
      requires layout.midiPorts > 0 && Slot(DATA, layout.quadlets, n) <= |buffer| && |midiReceived| == PORTS
      modifies this`midiReceived
      ensures |midiReceived| == PORTS && forall port :: 0 <= port < PORTS ==>
                midiReceived[port] == old(midiReceived)[port] + Delivered(buffer, n, port)
    {
      ghost var quadlets, open, received := Firsts(GetMidi(layout, buffer, n)), OpenPorts(), midiReceived;
      var b, f := DATA, 0;
      while f < n
        invariant f <= n && b == Slot(DATA, layout.quadlets, f) && |midiReceived| == PORTS
        invariant midiReceived == PullAll(dataBlockCounter, quadlets, f, open, received)
      {
        var quadlet := MidiAt(buffer, b, n, f);
        var port := PortOf(dataBlockCounter, f);
        if ports[port].queue.Some? {
          midiReceived := midiReceived[port := midiReceived[port] + MidiBytes(quadlet)];
        }
        b := b + layout.quadlets;
        f := f + 1;
      }
      forall port | 0 <= port < PORTS ensures midiReceived[port] == received[port] + Delivered(buffer, n, port) {
        PullAllAt(dataBlockCounter, quadlets, n, open, received, port);
      }
    }

    ghost function OpenPorts(): (r: seq<bool>)
      reads this`ports
      ensures |r| == PORTS && forall port :: 0 <= port < PORTS ==> r[port] == ports[port].queue.Some?
    {
      var all := ports;
      seq(PORTS, port requires 0 <= port < PORTS => all[port].queue.Some?)
    }

    method MidiAt(buffer: seq<Quadlet>, b: nat, n: nat, f: nat) returns (quadlet: Quadlet)
      requires layout.midiPorts > 0 && f < n && b == Slot(DATA, layout.quadlets, f)
               && Slot(DATA, layout.quadlets, n) <= |buffer|
      ensures quadlet == Firsts(GetMidi(layout, buffer, n))[f]
    {
      SlotOrder(DATA, layout.quadlets, f, n);
      GetBlocksAt(buffer, DATA, layout.quadlets, [layout.midiPosition], 1, n, f);
      quadlet := buffer[b + layout.midiPosition];
    }

    /** The bytes that a packet of n blocks holds for a port, if it is open. */
    ghost function Delivered(buffer: seq<Quadlet>, n: nat, port: nat): seq<Byte>
      requires layout.midiPorts > 0 && Slot(DATA, layout.quadlets, n) <= |buffer| && port < PORTS
      reads this`layout, this`ports, this`dataBlockCounter
    {
      if ports[port].queue.Some?
      then PullMidi(dataBlockCounter, Firsts(GetMidi(layout, buffer, n)), n, port)
      else []
    }

    /** The bytes are handed out by the stream's own counter; it gives each block
        the port of its event exactly if the header does not let it differ. */
    lemma DeliveredByEvents(buffer: seq<Quadlet>, r: Reception, h0: Quadlet, h1: Quadlet, payloadQuadlets: nat,
                            port: nat)
      requires layout.midiPorts > 0 && port < PORTS && ports[port].queue.Some?
      requires r == Receive(flags, dataBlockCounter, layout.quadlets, txDbcInterval, h0, h1, payloadQuadlets)
      requires r.Accepted? && Slot(DATA, layout.quadlets, r.dataBlocks) <= |buffer|
      requires CountsEvents(flags, dataBlockCounter, txDbcInterval, r.dbc, r.dataBlocks)
      ensures var quadlets := Firsts(GetMidi(layout, buffer, r.dataBlocks));
              Delivered(buffer, r.dataBlocks, port) ==
              PullMidi(FirstEvent(flags, r.dbc, r.dataBlocks), quadlets, r.dataBlocks, port)
    {
      var quadlets := Firsts(GetMidi(layout, buffer, r.dataBlocks));
      if r.dataBlocks > 0 {
        EventPortIff(flags, dataBlockCounter, layout.quadlets, txDbcInterval, h0, h1, payloadQuadlets, 0);
        SamePort(dataBlockCounter, FirstEvent(flags, r.dbc, r.dataBlocks), 0);
        hide Receive, CountsEvents, FirstEvent;
        PullMidiSame(dataBlockCounter, FirstEvent(flags, r.dbc, r.dataBlocks), quadlets, r.dataBlocks, port);
      }
    }

    /** The PCM and MIDI of an accepted packet. */
    method TransferIn(buffer: seq<Quadlet>, n: nat)
      requires |midiReceived| == PORTS && PcmReady(n) && Slot(DATA, layout.quadlets, n) <= |buffer|
      modifies this`midiReceived, if pcm != null then {pcm.dma} else {}
      ensures pcm != null ==> pcm.dma[..] == old(RingAfter(buffer, n))
      ensures |midiReceived| == PORTS && forall port :: 0 <= port < PORTS ==>
                midiReceived[port] == old(midiReceived)[port] +
                                      if layout.midiPorts > 0 then Delivered(buffer, n, port) else []
    {
      if n == 0 {
        return;
      }
      if pcm != null {
        ReadS32(buffer, n);
      }
      if layout.midiPorts > 0 {
        PullMidiBlocks(buffer, n);
      }
    }

    /** A received packet that leaves the PCM pointers alone. */
    method JustQueue(queued: bool)
      requires 0 <= packetIndex < QUEUE_LENGTH
      modifies this`packetIndex
      ensures packetIndex == if queued then NextIndex(old(packetIndex)) else -1
    {
      var ok := QueuePacket(queued);
      if !ok {
        packetIndex := -1;
      }
    }

    /** An accepted packet of n blocks, after which the counter is `next`. */
    method AcceptPacket(buffer: seq<Quadlet>, n: nat, next: nat, queued: bool)
      requires Valid() && packetIndex >= 0 && PcmReady(n) && Slot(DATA, layout.quadlets, n) <= |buffer|
      modifies this`midiReceived, this`dataBlockCounter, this`packetIndex, this`pcmBufferPointer,
               this`pcmPeriodPointer, this`periodsElapsed,
               if pcm != null then {pcm.dma} else {}
      ensures dataBlockCounter == next && packetIndex == if queued then NextIndex(old(packetIndex)) else -1
      ensures pcm != null ==> pcm.dma[..] == old(RingAfter(buffer, n))
      ensures pcm != null && queued ==> pcmBufferPointer == NextPointer(old(pcmBufferPointer), pcm.bufferSize, Units(n))
      ensures pcm == null || !queued ==> pcmBufferPointer == old(pcmBufferPointer)
      ensures FramesCounted() == old(FramesCounted()) + if queued && pcm != null then Units(n) else 0
      ensures periodsElapsed == if queued && n > 0 then old(PeriodsAfter(Units(n))) else old(periodsElapsed)
      ensures |midiReceived| == PORTS && forall port :: 0 <= port < PORTS ==>
                midiReceived[port] == old(midiReceived)[port] +
                                      if layout.midiPorts > 0 then old(Delivered(buffer, n, port)) else []
    {
      TransferIn(buffer, n);
      dataBlockCounter := next;
      if n > 0 {
        FinishPacket(n, queued);
      } else {
        JustQueue(queued);
      }
    }

    /** handle_in_packet. */
    method HandleInPacket(buffer: seq<Quadlet>, payloadQuadlets: nat, queued: bool) returns (r: Reception)
      requires Valid() && packetIndex >= 0 && DATA <= |buffer| && payloadQuadlets <= |buffer|
      requires StaysInPayload(flags, layout.quadlets, buffer[0], buffer[1], payloadQuadlets)
      requires PcmReady(OwnBlocks(layout.quadlets, payloadQuadlets))
      modifies this`midiReceived, this`dataBlockCounter, this`packetIndex, this`pcmBufferPointer,
               this`pcmPeriodPointer, this`periodsElapsed,
               if pcm != null then {pcm.dma} else {}
      ensures r == old(Receive(flags, dataBlockCounter, layout.quadlets, txDbcInterval, buffer[0], buffer[1],
                               payloadQuadlets))
      ensures packetIndex == if r.Failed? || !queued then -1 else NextIndex(old(packetIndex))
      ensures !r.Accepted? ==>
                && unchanged(`midiReceived) && unchanged(`dataBlockCounter) && unchanged(`pcmBufferPointer)
                && (pcm != null ==> unchanged(pcm.dma))
      ensures r.Accepted? ==>
                && dataBlockCounter == r.next && |midiReceived| == PORTS
                && Slot(DATA, layout.quadlets, r.dataBlocks) <= |buffer|
      ensures r.Accepted? && pcm != null ==>
                old(PcmReady(r.dataBlocks)) && pcm.dma[..] == old(RingAfter(buffer, r.dataBlocks))
      ensures r.Accepted? && pcm != null && queued ==>
                pcmBufferPointer == NextPointer(old(pcmBufferPointer), pcm.bufferSize, Units(r.dataBlocks))
      ensures r.Accepted? && !queued ==> pcmBufferPointer == old(pcmBufferPointer)
      ensures FramesCounted() ==
              old(FramesCounted()) + if r.Accepted? && queued && pcm != null then Units(r.dataBlocks) else 0
      ensures periodsElapsed == if r.Accepted? && r.dataBlocks > 0 && queued
                                then old(PeriodsAfter(Units(r.dataBlocks))) else old(periodsElapsed)
      ensures r.Accepted? ==> forall port :: 0 <= port < PORTS ==>
                midiReceived[port] == old(midiReceived)[port] +
                                      if layout.midiPorts > 0 then old(Delivered(buffer, r.dataBlocks, port)) else []
    {
      hide Receive, RingAfter, Delivered, PcmReady, StaysInPayload, OwnBlocks;
      r := ExamineHeader(buffer[0], buffer[1], payloadQuadlets);
      if r.Failed? {
        packetIndex := -1;
        return;
      }
      if r.Accepted? {
        AcceptedIsReady(r.dataBlocks, buffer[0], buffer[1], payloadQuadlets, |buffer|);
        AcceptPacket(buffer, r.dataBlocks, r.next, queued);
      } else {
        JustQueue(queued);
      }
    }

    // -------------------------------------------------------------------
    // Callback
    // -------------------------------------------------------------------

    /** The stream is where k packets after its start have brought it. */
    ghost predicate AtPacket(k: nat)
      reads this`sfc, this`lastSytOffset, this`sytOffsetState, this`dataBlockState, this`dataBlockCounter
    {
      && Timing() == SytAfter(sfc, k)
      && dataBlockState == BlockStateAfter(blocking, sfc, k)
      && dataBlockCounter == TotalBlocks(blocking, sfc, k) % 0x100
    }

    ghost function TheOutput(): Output
      reads this`sfc, this`layout, this`transferDelay, this`sourceNodeIdField, this`doublePcmFrames, this`pcm
      reads if pcm != null then {pcm.dma} else {}
    {
      Output(blocking, sfc, transferDelay, sourceNodeIdField, layout, doublePcmFrames,
             if pcm == null then None else Some(Ring(pcm.dma[..], pcm.bufferSize, pcm.channels)))
    }

    /** Configured to send any packet of the schedule from `buffer`. */
    ghost predicate OutputConfigured(buffer: array<Quadlet>)
      reads this`sfc, this`layout, this`sytInterval, this`pcm, this`doublePcmFrames
    {
      && sytInterval == SytInterval(sfc)
      && DATA <= buffer.Length && Slot(DATA, layout.quadlets, sytInterval) <= buffer.Length
      && (pcm != null ==>
            && buffer != pcm.dma && pcm.Valid()
            && Suits(doublePcmFrames, blocking, sfc, layout.channels, pcm.channels, pcm.bufferSize))
    }

    ghost predicate OutputReady(buffer: array<Quadlet>)
      reads this, if pcm != null then {pcm.dma} else {}
      ensures OutputReady(buffer) ==> IsPlayable(TheOutput(), pcmBufferPointer)
    {
      && OutputConfigured(buffer) && Valid() && packetIndex >= 0
      && (pcm != null ==> PointerOk(doublePcmFrames, pcm.bufferSize, pcmBufferPointer))
    }

    /** Packet k is next, and `o` is what the stream sends. */
    ghost predicate Streams(o: Output, buffer: array<Quadlet>, k: nat)
      reads this, if pcm != null then {pcm.dma} else {}
      ensures Streams(o, buffer, k) ==> IsPlayable(o, pcmBufferPointer)
    {
      OutputReady(buffer) && AtPacket(k) && TheOutput() == o
    }

    /** The state between the timestamp and the packet. */
    ghost predicate BeforePacket(k: nat)
      reads this`sfc, this`lastSytOffset, this`sytOffsetState, this`dataBlockState, this`dataBlockCounter
    {
      && Timing() == SytAfter(sfc, k + 1)
      && dataBlockState == BlockStateAfter(blocking, sfc, k)
      && dataBlockCounter == TotalBlocks(blocking, sfc, k) % 0x100
    }

    ghost function TheCursor(): Cursor
      reads this`pcmBufferPointer, this`ports
    {
      Cursor(pcmBufferPointer, ports)
    }

    /** handle_out_packet for packet k, whose timestamp is `syt`, by the stream's fields. */
    method HandleScheduled(buffer: array<Quadlet>, syt: nat, ghost k: nat) returns (payloadLength: nat)
      requires OutputReady(buffer) && BeforePacket(k)
      requires syt < 0x1_0000 && (syt != SYT_NO_INFO <==> Emits(sfc, k))
      requires PcmReady(sytInterval) && PcmReady(BlocksOf(blocking, sfc, k))
      modifies this`ports, this`dataBlockState, this`dataBlockCounter, this`packetIndex,
               this`pcmBufferPointer, this`pcmPeriodPointer, this`periodsElapsed, buffer
      ensures OutputReady(buffer) && AtPacket(k + 1)
      ensures payloadLength == 4 * Slot(DATA, layout.quadlets, BlocksOf(blocking, sfc, k)) <= 4 * buffer.Length
      ensures buffer[..] == OutPacket(TheSetup(), old(buffer[..]), old(dataBlockCounter), syt,
                                      old(FramesToSend(BlocksOf(blocking, sfc, k))),
                                      FillMidi(sfc, old(dataBlockCounter), old(ports), BlocksOf(blocking, sfc, k)).1)
      ensures ports == if layout.midiPorts > 0
                       then FillMidi(sfc, old(dataBlockCounter), old(ports), BlocksOf(blocking, sfc, k)).0
                       else old(ports)
      ensures pcmBufferPointer == if pcm == null then old(pcmBufferPointer)
                                  else NextPointer(old(pcmBufferPointer), pcm.bufferSize,
                                                   Units(BlocksOf(blocking, sfc, k)))
    {
      hide OutPacket, BlocksOf, FramesToSend, BlockStateAfter, FillMidi, Fits, NextPointer, PcmReady;
      if pcm != null {
        PointerStaysOk(doublePcmFrames, blocking, sfc, layout.channels, pcm.channels, pcm.bufferSize, pcmBufferPointer,
                       k);
      }
      ScheduledBlocks(blocking, sfc, k);
      NextTotal(blocking, sfc, k);
      hide PacketBlocks, PacketBlockStep, TotalBlocks, SytAfter, Emits, PointerOk, Suits;
      var dataBlocks;
      dataBlocks, payloadLength := HandleOutPacket(buffer, syt, true);
    }

    /** handle_out_packet for packet k of the output `o`. */
    method EmitPacket(ghost o: Output, buffer: array<Quadlet>, syt: nat, ghost k: nat) returns (packet: seq<Quadlet>)
      requires OutputReady(buffer) && BeforePacket(k) && TheOutput() == o
      requires syt < 0x1_0000 && (syt != SYT_NO_INFO <==> Emits(sfc, k))
      modifies this`ports, this`dataBlockState, this`dataBlockCounter, this`packetIndex,
               this`pcmBufferPointer, this`pcmPeriodPointer, this`periodsElapsed, buffer
      ensures OutputReady(buffer) && AtPacket(k + 1)
      ensures TheCursor() == NextCursor(o, old(TheCursor()), k)
      ensures var n := Slot(DATA, layout.quadlets, BlocksOf(blocking, sfc, k));
              && n <= buffer.Length
              && packet == OutPacket(TheSetup(), old(buffer[..]), old(dataBlockCounter), syt,
                                     NextFrames(o, old(pcmBufferPointer), k), NextMidi(o, old(ports), k).1)[..n]
    {
      hide IsPlayable, BlocksOf, FramesToSend, NextPointer, FillMidi, NextFrames, OutPacket;
      ConfiguredIsReady(buffer);
      FramesAreNext(k);
      hide PcmReady;
      var payloadLength := HandleScheduled(buffer, syt, k);
      packet := buffer[..payloadLength / 4];
    }

    method SendScheduled(ghost o: Output, buffer: array<Quadlet>, syt: nat, cycle: nat, ghost k: nat)
      returns (packet: seq<Quadlet>)
      requires OutputReady(buffer) && BeforePacket(k) && TheOutput() == o
      requires syt == SytField(SytAfter(sfc, k + 1).last, transferDelay, cycle) < 0x1_0000
      modifies this`ports, this`dataBlockState, this`dataBlockCounter, this`packetIndex,
               this`pcmBufferPointer, this`pcmPeriodPointer, this`periodsElapsed, buffer
      ensures Streams(o, buffer, k + 1)
      ensures TheCursor() == NextCursor(o, old(TheCursor()), k)
      ensures IsPacket(o, packet, cycle, k, old(TheCursor()))
    {
      hide NextCursor, IsPacket, OutPacket, NextFrames;
      ghost var area: seq<Quadlet>, at := buffer[..], TheCursor();
      SytFieldHasInfo(SytAfter(sfc, k + 1).last, transferDelay, cycle);
      packet := EmitPacket(o, buffer, syt, k);
      BuiltPacket(o, TheSetup(), area, cycle, k, at, packet);
    }

    lemma ConfiguredIsReady(buffer: array<Quadlet>)
      requires OutputConfigured(buffer)
      requires pcm != null ==> PointerOk(doublePcmFrames, pcm.bufferSize, pcmBufferPointer)
      ensures PcmReady(sytInterval)
    {
      if pcm != null {
        TransferFits(doublePcmFrames, blocking, sfc, layout.channels, pcm.channels, pcm.bufferSize, pcmBufferPointer,
                     sytInterval);
      }
    }

    lemma FramesAreNext(k: nat)
      requires PcmReady(sytInterval) && sytInterval == SytInterval(sfc) && IsPlayable(TheOutput(), pcmBufferPointer)
      ensures PcmReady(BlocksOf(blocking, sfc, k))
      ensures FramesToSend(BlocksOf(blocking, sfc, k)) == NextFrames(TheOutput(), pcmBufferPointer, k)
    {
      hide Frames;
      BlocksFit(blocking, sfc, k);
      FewerBlocksReady(BlocksOf(blocking, sfc, k));
    }

    /** One packet of out_stream_callback, the k'th since the start. */
    method NextOutPacket(ghost o: Output, buffer: array<Quadlet>, cycle: nat, ghost k: nat)
      returns (packet: seq<Quadlet>)
      requires Streams(o, buffer, k)
      modifies this`ports, this`dataBlockState, this`dataBlockCounter, this`packetIndex, this`lastSytOffset,
               this`sytOffsetState, this`pcmBufferPointer, this`pcmPeriodPointer, this`periodsElapsed, buffer
      ensures Streams(o, buffer, k + 1)
      ensures TheCursor() == NextCursor(o, old(TheCursor()), k)
      ensures IsPacket(o, packet, cycle, k, old(TheCursor()))
    {
      assert SytAfter(sfc, k + 1) == SytStep(sfc, SytAfter(sfc, k));
      var syt := CalculateSyt(cycle);
      packet := SendScheduled(o, buffer, syt, cycle, k);
    }

    /** `sent` are the packets from packet k on, since the cursor was at `start`. */
    ghost predicate HasSent(o: Output, buffer: array<Quadlet>, sent: seq<seq<Quadlet>>, first: nat, k: nat,
                            start: Cursor)
      requires IsPlayable(o, start.pointer)
      reads this, if pcm != null then {pcm.dma} else {}
    {
      && Streams(o, buffer, k + |sent|) && TheCursor() == CursorAfter(o, start, k, |sent|)
      && AreOutPackets(o, sent, first, k, start)
    }

    /** One more packet. */
    method SendOne(ghost o: Output, buffer: array<Quadlet>, cycle: nat, sent: seq<seq<Quadlet>>,
                   ghost first: nat, ghost k: nat, ghost start: Cursor)
      returns (all: seq<seq<Quadlet>>)
      requires IsPlayable(o, start.pointer) && HasSent(o, buffer, sent, first, k, start) && cycle == first + |sent|
      modifies this`ports, this`dataBlockState, this`dataBlockCounter, this`packetIndex, this`lastSytOffset,
               this`sytOffsetState, this`pcmBufferPointer, this`pcmPeriodPointer, this`periodsElapsed, buffer
      ensures |all| == |sent| + 1 && HasSent(o, buffer, all, first, k, start)
    {
      hide IsPacket, AreOutPackets, Streams, NextCursor;
      var packet := NextOutPacket(o, buffer, cycle, k + |sent|);
      AppendPacket(o, sent, packet, first, k, start);
      all := sent + [packet];
    }

    /** A stream that has failed, on which the callback may still be running. */
    ghost predicate HasFailed(buffer: array<Quadlet>)
      reads this, if pcm != null then {pcm.dma} else {}
    {
      && OutputConfigured(buffer) && Valid() && dataBlockCounter < 0x100 && packetIndex < 0
      && (pcm != null ==> PointerOk(doublePcmFrames, pcm.bufferSize, pcmBufferPointer))
    }

    /** handle_out_packet when the bus refuses the packet, or has refused one before. */
    method LosePacket(buffer: array<Quadlet>, syt: nat)
      requires OutputConfigured(buffer) && Valid() && dataBlockCounter < 0x100 && syt < 0x1_0000
      requires PcmReady(sytInterval) && (pcm != null ==> PointerOk(doublePcmFrames, pcm.bufferSize, pcmBufferPointer))
      modifies this`ports, this`dataBlockState, this`dataBlockCounter, this`packetIndex,
               this`pcmBufferPointer, this`pcmPeriodPointer, this`periodsElapsed, buffer
      ensures HasFailed(buffer) && pcmBufferPointer == old(pcmBufferPointer) && periodsElapsed == old(periodsElapsed)
      ensures old(packetIndex) < 0 ==>
                buffer[..] == old(buffer[..]) && ports == old(ports) && dataBlockCounter == old(dataBlockCounter)
    {
      hide OutPacket, FillMidi, FramesToSend, PcmReady, PacketBlocks, PacketBlockStep, Fits, NextPointer;
      var _, _ := HandleOutPacket(buffer, syt, false);
    }

    /** The packet that the bus refuses, or one after it. */
    method LoseOne(ghost o: Output, buffer: array<Quadlet>, cycle: nat, ghost k: nat)
      requires Streams(o, buffer, k) || HasFailed(buffer)
      modifies this`ports, this`dataBlockState, this`dataBlockCounter, this`packetIndex, this`lastSytOffset,
               this`sytOffsetState, this`pcmBufferPointer, this`pcmPeriodPointer, this`periodsElapsed, buffer
      ensures HasFailed(buffer) && pcmBufferPointer == old(pcmBufferPointer) && periodsElapsed == old(periodsElapsed)
      ensures old(HasFailed(buffer)) ==>
                buffer[..] == old(buffer[..]) && ports == old(ports) && dataBlockCounter == old(dataBlockCounter)
    {
      ConfiguredIsReady(buffer);
      hide Fits, TotalBlocks, SytAfter, BlockStateAfter, IsPlayable, PointerOk, Suits;
      var syt := CalculateSyt(cycle);
      LosePacket(buffer, syt);
    }

    /** out_stream_callback: `packets` packets with consecutive cycles, of which the
        bus takes the first `taken`. `buffer` stands for the slots of the packet
        queue, each of which is sent before it is used again. */
    method OutStreamCallback(ghost o: Output, buffer: array<Quadlet>, cycle: nat, packets: nat, taken: nat,
                             ghost k: nat)
      returns (sent: seq<seq<Quadlet>>)
      requires Streams(o, buffer, k) && taken <= packets <= QUEUE_LENGTH
      modifies this`ports, this`dataBlockState, this`dataBlockCounter, this`packetIndex, this`lastSytOffset,
               this`sytOffsetState, this`pcmBufferPointer, this`pcmPeriodPointer, this`periodsElapsed, buffer
      ensures |sent| == taken && AreOutPackets(o, sent, cycle + QUEUE_LENGTH - packets + 1, k, old(TheCursor()))
      ensures pcmBufferPointer == CursorAfter(o, old(TheCursor()), k, taken).pointer
      ensures if taken == packets then HasSent(o, buffer, sent, cycle + QUEUE_LENGTH - packets + 1, k, old(TheCursor()))
              else HasFailed(buffer)
    {
      hide IsPacket, AreOutPackets, Streams, CursorAfter;
      var c: nat := cycle + QUEUE_LENGTH - packets;
      ghost var start, first: nat := TheCursor(), c + 1;
      sent := [];
      NoPackets(o, first, k, start);
      var i := 0;
      while i < packets
        invariant i <= packets && c + 1 == first + i && |sent| == (if i < taken then i else taken)
                  && IsPlayable(o, start.pointer)
        invariant AreOutPackets(o, sent, first, k, start)
        invariant pcmBufferPointer == CursorAfter(o, start, k, |sent|).pointer
        invariant if i <= taken then HasSent(o, buffer, sent, first, k, start) else HasFailed(buffer)
      {
        c := c + 1;
        if i < taken {
          sent := SendOne(o, buffer, c, sent, first, k, start);
        } else {
          LoseOne(o, buffer, c, k + |sent|);
        }
        i := i + 1;
      }
    }
  }

  lemma NoPackets(o: Output, cycle: nat, k: nat, at: Cursor)
    requires IsPlayable(o, at.pointer)
    ensures AreOutPackets(o, [], cycle, k, at) && CursorAfter(o, at, k, 0) == at
  {
  }

  lemma BuiltPacket(o: Output, s: Setup, area: seq<Quadlet>, cycle: nat, k: nat, at: Cursor, packet: seq<Quadlet>)
    requires IsPlayable(o, at.pointer) && DATA <= |area|
    requires s.layout == o.layout && s.sfc == o.sfc && s.nodeField == o.nodeField
    requires Slot(DATA, o.layout.quadlets, BlocksOf(o.blocking, o.sfc, k)) <= |area|
    requires SytField(SytAfter(o.sfc, k + 1).last, o.transferDelay, cycle) < 0x1_0000
    requires packet == OutPacket(s, area, TotalBlocks(o.blocking, o.sfc, k) % 0x100,
                                 SytField(SytAfter(o.sfc, k + 1).last, o.transferDelay, cycle),
                                 NextFrames(o, at.pointer, k), NextMidi(o, at.ports, k).1)
                       [..Slot(DATA, o.layout.quadlets, BlocksOf(o.blocking, o.sfc, k))]
    ensures IsPacket(o, packet, cycle, k, at)
  {
    PacketShows(s, area, TotalBlocks(o.blocking, o.sfc, k) % 0x100,
                SytField(SytAfter(o.sfc, k + 1).last, o.transferDelay, cycle),
                NextFrames(o, at.pointer, k), NextMidi(o, at.ports, k).1);
  }

  lemma AppendPacket(o: Output, packets: seq<seq<Quadlet>>, packet: seq<Quadlet>, first: nat, k: nat, start: Cursor)
    requires IsPlayable(o, start.pointer) && AreOutPackets(o, packets, first, k, start)
    requires IsPacket(o, packet, first + |packets|, k + |packets|, CursorAfter(o, start, k, |packets|))
    ensures AreOutPackets(o, packets + [packet], first, k, start)
  {
    hide IsPacket;
    assert (packets + [packet])[..|packets|] == packets;
  }

  /** Replacing a part of a sequence, element by element. */
  lemma SpliceNext<T>(was: seq<T>, at: nat, part: seq<T>, c: nat)
    requires c < |part| && at + |part| <= |was|
    ensures (was[..at] + part[..c] + was[at + c..])[at + c := part[c]] == was[..at] + part[..c + 1] + was[at + c + 1..]
  {
  }

  lemma ScheduledBlocks(blocking: bool, sfc: Sfc, k: nat)
    ensures PacketBlocks(blocking, sfc, BlockStateAfter(blocking, sfc, k), Emits(sfc, k)) == BlocksOf(blocking, sfc, k)
    ensures PacketBlockStep(blocking, sfc, BlockStateAfter(blocking, sfc, k), Emits(sfc, k)) ==
            BlockStateAfter(blocking, sfc, k + 1)
  {
  }

  lemma NextTotal(blocking: bool, sfc: Sfc, k: nat)
    ensures TotalBlocks(blocking, sfc, k + 1) % 0x100 ==
            NextDbc(TotalBlocks(blocking, sfc, k) % 0x100, BlocksOf(blocking, sfc, k))
  {
    CountOn(TotalBlocks(blocking, sfc, k), BlocksOf(blocking, sfc, k));
  }

  lemma CountOn(total: nat, n: nat)
    ensures (total + n) % 0x100 == NextDbc(total % 0x100, n)
  {
  }

  lemma InitialStateOk(sfc: Sfc)
    ensures IsBase44100(sfc) ==> InitialBlockState(sfc) < PhaseCount(sfc)
  {
  }

  /** The initial position map: PCM channels in order, MIDI behind them. */
  lemma DefaultLayout(channels: nat, midi: nat, positions: seq<nat>)
    requires channels <= AMDTP_MAX_CHANNELS_FOR_PCM && channels + midi > 0
             && positions == seq(AMDTP_MAX_CHANNELS_FOR_PCM, c => c)
    ensures IsLayout(Layout(channels + (if midi > 0 then 1 else 0), channels, positions, midi, channels))
    ensures positions[..channels] == seq(channels, c => c)
  {
  }

  /** The quadlet of block f does not depend on how many blocks follow. */
  lemma {:induction false} FillMidiAt(sfc: Sfc, dbc: nat, ports: Ports, n: nat, f: nat)
    requires f < n
    ensures FillMidi(sfc, dbc, ports, n).1[f] == FillMidi(sfc, dbc, ports, f + 1).1[f]
  {
    if f + 1 < n {
      FillMidiAt(sfc, dbc, ports, n - 1, f);
    }
  }
}
