/** Two stream objects of sound/firewire/amdtp.c, one sending and one receiving,
    connected packet by packet. */
module AmdtpDuplex {
  import opened AmdtpTiming
  import opened AmdtpMidi
  import opened AmdtpPackets
  import opened PcmBlocks
  import opened AmdtpData
  import opened AmdtpLoopback
  import opened AmdtpStreams

  /** Both streams run with the same parameters, the receiver without quirks, and
      each has a substream of its own; `buffer` is the packet on the bus. */
  ghost predicate Connected(tx: AmdtpStream, rx: AmdtpStream, buffer: array<Quadlet>)
    reads tx, rx
  {
    && tx != rx && tx.pcm != null && rx.pcm != null && tx.pcm.dma != rx.pcm.dma && buffer != rx.pcm.dma
    && !tx.doublePcmFrames && tx.OutputConfigured(buffer) && tx.Valid() && tx.packetIndex >= 0
    && tx.dataBlockCounter < 0x100 && tx.pcmBufferPointer < tx.pcm.bufferSize
    && rx.Valid() && rx.packetIndex >= 0 && rx.flags == NO_QUIRKS && !rx.doublePcmFrames
    && rx.layout == tx.layout && rx.txDbcInterval == tx.txDbcInterval
    && rx.pcm.Valid() && rx.pcm.channels == rx.layout.channels && tx.sytInterval <= rx.pcm.bufferSize
    && rx.dataBlockCounter < 0x100 && rx.pcmBufferPointer < rx.pcm.bufferSize
  }

  /** The link's state is that of the two objects. */
  ghost predicate Shows(l: Link, tx: AmdtpStream, rx: AmdtpStream)
    requires rx.pcm != null
    reads tx, rx, rx.pcm.dma
  {
    && l.dbc == tx.dataBlockCounter && l.expected == rx.dataBlockCounter
    && l.outPointer == tx.pcmBufferPointer && l.inPointer == rx.pcmBufferPointer && l.capture == rx.pcm.dma[..]
  }

  ghost predicate IsInStep(l: Link, tx: AmdtpStream, rx: AmdtpStream)
    requires rx.pcm != null
    reads tx, rx, rx.pcm.dma
  {
    Shows(l, tx, rx) && InStep(tx.TheSetup(), rx.pcm.bufferSize, l)
  }

  /** handle_out_packet on one object. */
  method Transmitted(tx: AmdtpStream, rx: AmdtpStream, buffer: array<Quadlet>, ghost l: Link, syt: nat, ghost t: Tick)
    returns (payloadQuadlets: nat)
    requires Connected(tx, rx, buffer) && l.dbc == tx.dataBlockCounter && l.outPointer == tx.pcmBufferPointer
    requires IsTick(tx.TheSetup(), tx.pcm.bufferSize, rx.pcm.bufferSize, t) && t.area == buffer[..]
             && t.ports == tx.ports && t.syt == syt
    requires t.blocks == PacketBlocks(tx.blocking, tx.sfc, tx.dataBlockState, syt != SYT_NO_INFO)
    requires tx.PcmReady(tx.sytInterval) && tx.PcmReady(t.blocks)
    requires tx.FramesToSend(t.blocks) == EncodeFrames(FramesOf(tx.TheSetup(), tx.pcm.bufferSize, l.outPointer, t))
    modifies tx`ports, tx`dataBlockState, tx`dataBlockCounter, tx`packetIndex,
             tx`pcmBufferPointer, tx`pcmPeriodPointer, tx`periodsElapsed, buffer
    ensures Connected(tx, rx, buffer)
    ensures payloadQuadlets == Slot(DATA, tx.layout.quadlets, t.blocks) <= buffer.Length
    ensures buffer[..] == PacketOf(tx.TheSetup(), tx.pcm.bufferSize, l, t)
    ensures tx.dataBlockCounter == (l.dbc + t.blocks) % 0x100
    ensures tx.pcmBufferPointer == NextPointer(l.outPointer, tx.pcm.bufferSize, t.blocks)
  {
    hide PacketBlocks, PacketBlockStep, FramesOf, Frames, EncodeFrames, OutPacket, Fits, FillMidi, NextPointer;
    var dataBlocks, payloadLength := tx.HandleOutPacket(buffer, syt, true);
    payloadQuadlets := payloadLength / 4;
  }

  /** The object is about to send the frames that the link takes. */
  lemma SendsFrames(tx: AmdtpStream, rx: AmdtpStream, buffer: array<Quadlet>, l: Link, t: Tick)
    requires Connected(tx, rx, buffer) && Shows(l, tx, rx) && t.playback == tx.pcm.dma[..] && t.area == buffer[..]
    requires t.syt < 0x1_0000 && t.blocks == PacketBlocks(tx.blocking, tx.sfc, tx.dataBlockState, t.syt != SYT_NO_INFO)
    ensures tx.PcmReady(tx.sytInterval) && tx.PcmReady(t.blocks)
    ensures IsTick(tx.TheSetup(), tx.pcm.bufferSize, rx.pcm.bufferSize, t)
            && IsLink(tx.TheSetup(), tx.pcm.bufferSize, rx.pcm.bufferSize, l)
    ensures tx.FramesToSend(t.blocks) == EncodeFrames(FramesOf(tx.TheSetup(), tx.pcm.bufferSize, l.outPointer, t))
  {
    hide Frames;
    RingFits(tx.pcmBufferPointer, tx.pcm.bufferSize, tx.layout.channels, tx.sytInterval);
    BlocksAreFew(tx, t.syt != SYT_NO_INFO);
    tx.FewerBlocksReady(t.blocks);
  }

  lemma BlocksAreFew(tx: AmdtpStream, hasSyt: bool)
    requires tx.Valid()
    ensures PacketBlocks(tx.blocking, tx.sfc, tx.dataBlockState, hasSyt) <= tx.sytInterval
  {
  }

  /** One packet from one object to the other: they stay in step. */
  method PassPacket(tx: AmdtpStream, rx: AmdtpStream, buffer: array<Quadlet>, syt: nat, ghost l: Link)
    returns (ghost next: Link, ghost t: Tick)
    requires Connected(tx, rx, buffer) && IsInStep(l, tx, rx) && syt < 0x1_0000
    modifies tx`ports, tx`dataBlockState, tx`dataBlockCounter, tx`packetIndex,
             tx`pcmBufferPointer, tx`pcmPeriodPointer, tx`periodsElapsed, buffer,
             rx`midiReceived, rx`dataBlockCounter, rx`packetIndex,
             rx`pcmBufferPointer, rx`pcmPeriodPointer, rx`periodsElapsed, rx.pcm.dma
    ensures Connected(tx, rx, buffer) && IsInStep(next, tx, rx)
    ensures t.playback == tx.pcm.dma[..] && t.syt == syt
    ensures t.blocks == PacketBlocks(tx.blocking, tx.sfc, old(tx.dataBlockState), syt != SYT_NO_INFO)
    ensures IsTick(tx.TheSetup(), tx.pcm.bufferSize, rx.pcm.bufferSize, t)
            && IsLink(tx.TheSetup(), tx.pcm.bufferSize, rx.pcm.bufferSize, l)
    ensures next == LinkStep(tx.TheSetup(), tx.pcm.bufferSize, rx.pcm.bufferSize, l, t)
  {
    hide FramesOf;
    t := Tick(tx.pcm.dma[..], buffer[..], syt,
              PacketBlocks(tx.blocking, tx.sfc, tx.dataBlockState, syt != SYT_NO_INFO), tx.ports);
    SendsFrames(tx, rx, buffer, l, t);
    hide PacketBlocks, FramesOf, Frames, EncodeFrames, PacketOf, LinkStep, InStep, Fits;
    var payloadQuadlets := Transmitted(tx, rx, buffer, l, syt, t);
    next := Received(tx, rx, buffer, payloadQuadlets, l, t);
    StepKeepsInStep(tx.TheSetup(), tx.pcm.bufferSize, rx.pcm.bufferSize, l, t);
  }

  /** handle_in_packet on the other. */
  method Received(tx: AmdtpStream, rx: AmdtpStream, buffer: array<Quadlet>, payloadQuadlets: nat, ghost l: Link,
                  ghost t: Tick)
    returns (ghost next: Link)
    requires Connected(tx, rx, buffer)
    requires IsTick(tx.TheSetup(), tx.pcm.bufferSize, rx.pcm.bufferSize, t)
             && IsLink(tx.TheSetup(), tx.pcm.bufferSize, rx.pcm.bufferSize, l)
    requires l.dbc == l.expected == rx.dataBlockCounter && l.inPointer == rx.pcmBufferPointer
             && l.capture == rx.pcm.dma[..]
    requires payloadQuadlets == Slot(DATA, tx.layout.quadlets, t.blocks) <= buffer.Length
    requires buffer[..] == PacketOf(tx.TheSetup(), tx.pcm.bufferSize, l, t)
    requires tx.dataBlockCounter == (l.dbc + t.blocks) % 0x100
    requires tx.pcmBufferPointer == NextPointer(l.outPointer, tx.pcm.bufferSize, t.blocks)
    modifies rx`midiReceived, rx`dataBlockCounter, rx`packetIndex,
             rx`pcmBufferPointer, rx`pcmPeriodPointer, rx`periodsElapsed, rx.pcm.dma
    ensures Connected(tx, rx, buffer) && Shows(next, tx, rx)
    ensures next == LinkStep(tx.TheSetup(), tx.pcm.bufferSize, rx.pcm.bufferSize, l, t)
  {
    hide PacketOf, LinkStep, Store, IsLink;
    ghost var s, outSize, inSize := tx.TheSetup(), tx.pcm.bufferSize, rx.pcm.bufferSize;
    next := LinkStep(s, outSize, inSize, l, t);
    PacketIsAccepted(s, outSize, inSize, l, t, payloadQuadlets);
    StoresFrames(tx, rx, buffer, l, t);
    hide PacketOf, Receive, StaysInPayload, OwnBlocks, InStep, FramesOf, DecodeFrames, GetPcm, Fits, Transmit, Deliver;
    var r := rx.HandleInPacket(buffer[..], payloadQuadlets, true);
  }

  /** The receiving object is about to store what the link delivers. */
  lemma StoresFrames(tx: AmdtpStream, rx: AmdtpStream, buffer: array<Quadlet>, l: Link, t: Tick)
    requires Connected(tx, rx, buffer)
    requires IsTick(tx.TheSetup(), tx.pcm.bufferSize, rx.pcm.bufferSize, t)
             && IsLink(tx.TheSetup(), tx.pcm.bufferSize, rx.pcm.bufferSize, l)
    requires l.dbc == l.expected && l.inPointer == rx.pcmBufferPointer && l.capture == rx.pcm.dma[..]
    requires buffer[..] == PacketOf(tx.TheSetup(), tx.pcm.bufferSize, l, t)
    ensures rx.PcmReady(t.blocks)
    ensures var next := LinkStep(tx.TheSetup(), tx.pcm.bufferSize, rx.pcm.bufferSize, l, t);
            && next.dbc == next.expected == (l.dbc + t.blocks) % 0x100
            && next.outPointer == NextPointer(l.outPointer, tx.pcm.bufferSize, t.blocks)
            && next.inPointer == NextPointer(l.inPointer, rx.pcm.bufferSize, t.blocks)
            && next.capture == rx.RingAfter(buffer[..], t.blocks)
  {
    hide PacketOf, Store;
    var got := StepDelivers(tx.TheSetup(), tx.pcm.bufferSize, rx.pcm.bufferSize, l, t, buffer[..]);
    StepFields(tx.TheSetup(), tx.pcm.bufferSize, rx.pcm.bufferSize, l, t, got);
    RingFits(rx.pcmBufferPointer, rx.pcm.bufferSize, rx.layout.channels, t.blocks);
    hide PacketOf, LinkStep, FramesOf, DecodeFrames, GetPcm, Store, NextPointer, Fits, IsTick;
  }

  lemma DeliverFields(s: Setup, inSize: nat, l: Link, got: seq<seq<Quadlet>>, next: nat)
    requires |l.capture| == FrameStart(s.layout.channels, inSize) && l.inPointer < inSize && |got| <= inSize
    requires forall i :: 0 <= i < |got| ==> |got[i]| == s.layout.channels
    ensures Fits(|l.capture|, FrameStart(s.layout.channels, l.inPointer), inSize - l.inPointer, s.layout.channels,
                 |got|)
    ensures var r := Deliver(s, inSize, l, got, next);
            && r.dbc == l.dbc && r.expected == next % 0x100 && r.outPointer == l.outPointer
            && r.inPointer == NextPointer(l.inPointer, inSize, |got|)
            && r.capture == Store(l.capture, FrameStart(s.layout.channels, l.inPointer), inSize - l.inPointer,
                                  s.layout.channels, got, |got|)
  {
    RingFits(l.inPointer, inSize, s.layout.channels, |got|);
  }

  /** What one packet does to the link, field by field; `got` are its frames. */
  lemma StepFields(s: Setup, outSize: nat, inSize: nat, l: Link, t: Tick, got: seq<seq<Quadlet>>)
    requires IsTick(s, outSize, inSize, t) && IsLink(s, outSize, inSize, l)
    requires |got| == t.blocks && forall i :: 0 <= i < |got| ==> |got[i]| == s.layout.channels
    requires LinkStep(s, outSize, inSize, l, t) ==
             Deliver(s, inSize, Transmit(s, outSize, l, t), got, (l.dbc + t.blocks) % 0x100)
    ensures Fits(|l.capture|, FrameStart(s.layout.channels, l.inPointer), inSize - l.inPointer, s.layout.channels,
                 |got|)
    ensures var next := LinkStep(s, outSize, inSize, l, t);
            && next.dbc == next.expected == (l.dbc + t.blocks) % 0x100
            && next.outPointer == NextPointer(l.outPointer, outSize, t.blocks)
            && next.inPointer == NextPointer(l.inPointer, inSize, t.blocks)
            && next.capture == Store(l.capture, FrameStart(s.layout.channels, l.inPointer), inSize - l.inPointer,
                                     s.layout.channels, got, |got|)
  {
    hide LinkStep, Store, Fits, Deliver;
    DeliverFields(s, inSize, Transmit(s, outSize, l, t), got, (l.dbc + t.blocks) % 0x100);
  }

  lemma StepDelivers(s: Setup, outSize: nat, inSize: nat, l: Link, t: Tick, packet: seq<Quadlet>)
    returns (got: seq<seq<Quadlet>>)
    requires IsTick(s, outSize, inSize, t) && IsLink(s, outSize, inSize, l) && l.dbc == l.expected
    requires packet == PacketOf(s, outSize, l, t)
    ensures got == DecodeFrames(GetPcm(s.layout, packet, t.blocks))
    ensures |got| == t.blocks && forall i :: 0 <= i < |got| ==> |got[i]| == s.layout.channels
    ensures LinkStep(s, outSize, inSize, l, t) ==
            Deliver(s, inSize, Transmit(s, outSize, l, t), got, (l.dbc + t.blocks) % 0x100)
  {
    got := DecodeFrames(GetPcm(s.layout, packet, t.blocks));
    StepIsDelivery(s, outSize, inSize, l, t);
    hide LinkStep, PacketOf, DecodeFrames, GetPcm, Deliver, Receive, StaysInPayload, OwnBlocks;
  }

  /** The packet passes the receiver's checks, stays in its payload, and delivers
      its blocks. */
  lemma PacketIsAccepted(s: Setup, outSize: nat, inSize: nat, l: Link, t: Tick, payloadQuadlets: nat)
    requires IsTick(s, outSize, inSize, t) && IsLink(s, outSize, inSize, l) && l.dbc == l.expected
    requires payloadQuadlets == Slot(DATA, s.layout.quadlets, t.blocks)
    ensures var packet := PacketOf(s, outSize, l, t);
            && Receive(NO_QUIRKS, l.expected, s.layout.quadlets, s.interval, packet[0], packet[1], payloadQuadlets) ==
               Accepted(t.blocks, l.dbc, (l.dbc + t.blocks) % 0x100)
            && StaysInPayload(NO_QUIRKS, s.layout.quadlets, packet[0], packet[1], payloadQuadlets)
            && OwnBlocks(s.layout.quadlets, payloadQuadlets) == t.blocks
  {
    hide Receive, FillMidi, EncodeFrames, FramesOf, Slot, OutPacket;
    var frames := EncodeFrames(FramesOf(s, outSize, l.outPointer, t));
    var midi := FillMidi(s.sfc, l.dbc, t.ports, t.blocks).1;
    SlotIsProduct(DATA, s.layout.quadlets, t.blocks);
    BlocksOfPayload(t.blocks, s.layout.quadlets);
    PacketAccepted(s, t.area, l.dbc, t.syt, frames, midi, l.expected);
    PacketShows(s, t.area, l.dbc, t.syt, frames, midi);
  }

  lemma StepIsDelivery(s: Setup, outSize: nat, inSize: nat, l: Link, t: Tick)
    requires IsTick(s, outSize, inSize, t) && IsLink(s, outSize, inSize, l) && l.dbc == l.expected
    ensures var packet := PacketOf(s, outSize, l, t);
            LinkStep(s, outSize, inSize, l, t) ==
            Deliver(s, inSize, Transmit(s, outSize, l, t), DecodeFrames(GetPcm(s.layout, packet, t.blocks)),
                    (l.dbc + t.blocks) % 0x100)
  {
    hide Receive, StaysInPayload, OwnBlocks, PacketOf, Deliver, Transmit, DecodeFrames, GetPcm;
    PacketIsAccepted(s, outSize, inSize, l, t, Slot(DATA, s.layout.quadlets, t.blocks));
    SlotIsProduct(DATA, s.layout.quadlets, t.blocks);
  }

  /** Ticks of packets that take their frames from the same playback ring. */
  ghost predicate AreTicks(s: Setup, outSize: nat, inSize: nat, ticks: seq<Tick>, playback: seq<Quadlet>) {
    forall k :: 0 <= k < |ticks| ==> IsTick(s, outSize, inSize, ticks[k]) && ticks[k].playback == playback
  }

  lemma {:induction false} AfterPrefix(s: Setup, outSize: nat, inSize: nat, start: Link, ticks: seq<Tick>, t: Tick,
                                       n: nat)
    requires IsLink(s, outSize, inSize, start) && n <= |ticks| && IsTick(s, outSize, inSize, t)
    requires forall k :: 0 <= k < |ticks| ==> IsTick(s, outSize, inSize, ticks[k])
    ensures After(s, outSize, inSize, start, ticks + [t], n) == After(s, outSize, inSize, start, ticks, n)
  {
    hide LinkStep;
    if n > 0 {
      AfterPrefix(s, outSize, inSize, start, ticks, t, n - 1);
      assert (ticks + [t])[n - 1] == ticks[n - 1];
    }
  }

  lemma AfterAppend(s: Setup, outSize: nat, inSize: nat, start: Link, ticks: seq<Tick>, t: Tick)
    requires IsLink(s, outSize, inSize, start) && IsTick(s, outSize, inSize, t)
    requires forall k :: 0 <= k < |ticks| ==> IsTick(s, outSize, inSize, ticks[k])
    ensures After(s, outSize, inSize, start, ticks + [t], |ticks| + 1) ==
            LinkStep(s, outSize, inSize, After(s, outSize, inSize, start, ticks, |ticks|), t)
  {
    hide LinkStep;
    AfterPrefix(s, outSize, inSize, start, ticks, t, |ticks|);
    assert (ticks + [t])[|ticks|] == t;
  }

  /** `last` is where the link stands after these ticks from `l` on, and so do the
      two objects. */
  ghost predicate HasPassed(tx: AmdtpStream, rx: AmdtpStream, buffer: array<Quadlet>, playback: seq<Quadlet>,
                            l: Link, ticks: seq<Tick>, last: Link)
    reads tx, rx, if tx.pcm != null then {tx.pcm.dma} else {}, if rx.pcm != null then {rx.pcm.dma} else {}
  {
    && Connected(tx, rx, buffer) && IsInStep(last, tx, rx) && tx.pcm.dma[..] == playback
    && AreTicks(tx.TheSetup(), tx.pcm.bufferSize, rx.pcm.bufferSize, ticks, playback)
    && IsLink(tx.TheSetup(), tx.pcm.bufferSize, rx.pcm.bufferSize, l)
    && last == After(tx.TheSetup(), tx.pcm.bufferSize, rx.pcm.bufferSize, l, ticks, |ticks|)
  }

  method PassOne(tx: AmdtpStream, rx: AmdtpStream, buffer: array<Quadlet>, cycle: nat, ghost playback: seq<Quadlet>,
                 ghost l: Link, ghost ticks: seq<Tick>, ghost last: Link)
    returns (ghost moreTicks: seq<Tick>, ghost next: Link)
    requires HasPassed(tx, rx, buffer, playback, l, ticks, last)
    modifies tx`ports, tx`dataBlockState, tx`dataBlockCounter, tx`packetIndex, tx`lastSytOffset, tx`sytOffsetState,
             tx`pcmBufferPointer, tx`pcmPeriodPointer, tx`periodsElapsed, buffer,
             rx`midiReceived, rx`dataBlockCounter, rx`packetIndex,
             rx`pcmBufferPointer, rx`pcmPeriodPointer, rx`periodsElapsed, rx.pcm.dma
    ensures |moreTicks| == |ticks| + 1 && HasPassed(tx, rx, buffer, playback, l, moreTicks, next)
  {
    hide LinkStep, After, InStep, IsLink;
    ghost var s, outSize, inSize := tx.TheSetup(), tx.pcm.bufferSize, rx.pcm.bufferSize;
    var syt := tx.CalculateSyt(cycle);
    ghost var t;
    next, t := PassPacket(tx, rx, buffer, syt, last);
    AfterAppend(s, outSize, inSize, l, ticks, t);
    moreTicks := ticks + [t];
  }

  /** A run of packets with the sender's own timestamps, from the cycle after
      `cycle` on: it is the run of the link, and after every packet the two
      objects are in step. */
  method PassPackets(tx: AmdtpStream, rx: AmdtpStream, buffer: array<Quadlet>, cycle: nat, packets: nat, ghost l: Link)
    returns (ghost ticks: seq<Tick>, ghost last: Link)
    requires Connected(tx, rx, buffer) && IsInStep(l, tx, rx)
    modifies tx`ports, tx`dataBlockState, tx`dataBlockCounter, tx`packetIndex, tx`lastSytOffset, tx`sytOffsetState,
             tx`pcmBufferPointer, tx`pcmPeriodPointer, tx`periodsElapsed, buffer,
             rx`midiReceived, rx`dataBlockCounter, rx`packetIndex,
             rx`pcmBufferPointer, rx`pcmPeriodPointer, rx`periodsElapsed, rx.pcm.dma
    ensures |ticks| == packets && HasPassed(tx, rx, buffer, old(tx.pcm.dma[..]), l, ticks, last)
    ensures tx.dataBlockCounter == rx.dataBlockCounter
  {
    ghost var playback := tx.pcm.dma[..];
    ticks, last := [], l;
    var i := 0;
    while i < packets
      invariant |ticks| == i <= packets && HasPassed(tx, rx, buffer, playback, l, ticks, last)
    {
      ticks, last := PassOne(tx, rx, buffer, cycle + 1 + i, playback, l, ticks, last);
      i := i + 1;
    }
  }
}
