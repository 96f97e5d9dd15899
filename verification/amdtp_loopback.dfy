/** A sending and a receiving AMDTP stream with the same parameters, packet by
    packet: what the capture ring holds after any run. */
module AmdtpLoopback {
  import opened AmdtpTiming
  import opened AmdtpMidi
  import opened AmdtpPackets
  import opened PcmBlocks
  import opened AmdtpData

  // ---------------------------------------------------------------------
  // Ring history
  // ---------------------------------------------------------------------

  /** The first n frames of a ring. */
  function View(ring: seq<Quadlet>, channels: nat, n: nat): (r: seq<seq<Quadlet>>)
    requires FrameStart(channels, n) <= |ring|
    ensures |r| == n
  {
    if n == 0 then [] else
      View(ring, channels, n - 1) + [ring[FrameStart(channels, n - 1)..FrameStart(channels, n)]]
  }

  lemma {:induction false} ViewAt(ring: seq<Quadlet>, channels: nat, n: nat, f: nat)
    requires FrameStart(channels, n) <= |ring| && f < n
    ensures FrameStart(channels, f) + channels <= |ring|
    ensures View(ring, channels, n)[f] == ring[FrameStart(channels, f)..FrameStart(channels, f) + channels]
  {
    FrameStartOrder(channels, f, n);
    if f < n - 1 {
      ViewAt(ring, channels, n - 1, f);
    }
  }

  lemma Splice<T>(ring: seq<T>, a: nat, frame: seq<T>, b: nat)
    requires a + |frame| <= |ring| && b + |frame| <= |ring|
    requires a == b || a + |frame| <= b || b + |frame| <= a
    ensures var ring' := ring[..a] + frame + ring[a + |frame|..];
            |ring'| == |ring| && ring'[b..b + |frame|] == if a == b then frame else ring[b..b + |frame|]
  {
  }

  /** Replacing the samples of frame f replaces frame f. */
  lemma ViewSplice(ring: seq<Quadlet>, channels: nat, n: nat, f: nat, frame: seq<Quadlet>)
    requires FrameStart(channels, n) <= |ring| && f < n && |frame| == channels
    ensures FrameStart(channels, f) + channels <= |ring|
    ensures var at := FrameStart(channels, f); var ring' := ring[..at] + frame + ring[at + channels..];
            |ring'| == |ring| && View(ring', channels, n) == View(ring, channels, n)[f := frame]
  {
    FrameStartOrder(channels, f, n);
    var at := FrameStart(channels, f);
    var ring' := ring[..at] + frame + ring[at + channels..];
    forall g | 0 <= g < n
      ensures View(ring', channels, n)[g] == if g == f then frame else View(ring, channels, n)[g]
    {
      ViewAt(ring', channels, n, g);
      ViewAt(ring, channels, n, g);
      FrameStartOrder(channels, g, n);
      if f < g {
        FrameStartOrder(channels, f, g);
      } else if g < f {
        FrameStartOrder(channels, g, f);
      }
      Splice(ring, at, frame, FrameStart(channels, g));
      assert channels == 0 ==> frame == [];
    }
  }

  function NextPointer(pointer: nat, size: nat, n: nat): nat {
    if pointer + n >= size then pointer + n - size else pointer + n
  }

  /** The ring position k frames before the pointer, 1 <= k <= size. */
  function Back(pointer: nat, size: nat, k: nat): int {
    if pointer >= k then pointer - k else pointer + size - k
  }

  /** The ring holds the last min(size, |history|) frames of the history, the
      newest just before the pointer. */
  ghost predicate Holds(frames: seq<seq<Quadlet>>, pointer: nat, history: seq<seq<Quadlet>>) {
    && pointer < |frames|
    && forall k :: 1 <= k <= |frames| && k <= |history| ==>
         0 <= Back(pointer, |frames|, k) < |frames| && frames[Back(pointer, |frames|, k)] == history[|history| - k]
  }

  lemma PushFrame(frames: seq<seq<Quadlet>>, pointer: nat, history: seq<seq<Quadlet>>, frame: seq<Quadlet>)
    requires Holds(frames, pointer, history)
    ensures Holds(frames[pointer := frame], NextPointer(pointer, |frames|, 1), history + [frame])
  {
    var next, all := NextPointer(pointer, |frames|, 1), history + [frame];
    forall k | 1 <= k <= |frames| && k <= |all|
      ensures 0 <= Back(next, |frames|, k) < |frames|
      ensures frames[pointer := frame][Back(next, |frames|, k)] == all[|all| - k]
    {
      if k > 1 {
        assert Back(next, |frames|, k) == Back(pointer, |frames|, k - 1) != pointer;
      }
    }
  }

  /** The frames of a ring after a transfer of n frames. */
  function StoreFrames(ring: seq<seq<Quadlet>>, pointer: nat, frames: seq<seq<Quadlet>>, n: nat): (r: seq<seq<Quadlet>>)
    requires pointer < |ring| && n <= |frames| && n <= |ring|
    ensures |r| == |ring|
  {
    if n == 0 then ring
    else StoreFrames(ring, pointer, frames, n - 1)[RingIndex(pointer, |ring|, n - 1) := frames[n - 1]]
  }

  lemma {:induction false} StoreIsFrames(ring: seq<Quadlet>, size: nat, channels: nat, pointer: nat,
                                         frames: seq<seq<Quadlet>>, n: nat)
    requires |ring| == FrameStart(channels, size) && pointer < size
    requires n <= |frames| && n <= size && forall i :: 0 <= i < n ==> |frames[i]| == channels
    ensures Fits(|ring|, FrameStart(channels, pointer), size - pointer, channels, n)
    ensures View(Store(ring, FrameStart(channels, pointer), size - pointer, channels, frames, n), channels, size) ==
            StoreFrames(View(ring, channels, size), pointer, frames, n)
  {
    hide FrameStart, Source;
    RingFits(pointer, size, channels, n);
    if n > 0 {
      StoreIsFrames(ring, size, channels, pointer, frames, n - 1);
      SourceIsRingFrame(pointer, size, channels, n - 1);
      ViewSplice(Store(ring, FrameStart(channels, pointer), size - pointer, channels, frames, n - 1), channels, size,
                 RingIndex(pointer, size, n - 1), frames[n - 1]);
    }
  }

  /** A transfer of n frames, wrapping or not, appends them to the history. */
  lemma {:induction false} StoreHolds(ring: seq<seq<Quadlet>>, pointer: nat, history: seq<seq<Quadlet>>,
                                      frames: seq<seq<Quadlet>>, n: nat)
    requires Holds(ring, pointer, history) && n <= |frames| && n <= |ring|
    ensures Holds(StoreFrames(ring, pointer, frames, n), NextPointer(pointer, |ring|, n), history + frames[..n])
  {
    if n == 0 {
      assert history + frames[..n] == history;
    } else {
      StoreHolds(ring, pointer, history, frames, n - 1);
      PushFrame(StoreFrames(ring, pointer, frames, n - 1), NextPointer(pointer, |ring|, n - 1),
                history + frames[..n - 1], frames[n - 1]);
      assert history + frames[..n] == history + frames[..n - 1] + [frames[n - 1]];
    }
  }

  // ---------------------------------------------------------------------
  // One packet
  // ---------------------------------------------------------------------

  /** What both streams are configured with. */
  datatype Setup = Setup(layout: Layout, sfc: Sfc, nodeField: NodeField, interval: nat)

  /** handle_out_packet's buffer: `area` is what was there before. */
  ghost function OutPacket(s: Setup, area: seq<Quadlet>, dbc: nat, syt: nat, frames: seq<seq<Quadlet>>,
                           midi: seq<Quadlet>): (r: seq<Quadlet>)
    requires dbc < 0x100 && syt < 0x1_0000
    requires |midi| == |frames| && DATA <= |area| && Slot(DATA, s.layout.quadlets, |frames|) <= |area|
    requires forall i :: 0 <= i < |frames| ==> |frames[i]| == s.layout.channels
    ensures |r| == |area|
  {
    var headed := area[0 := Header0(s.nodeField, s.layout.quadlets, dbc)][1 := Header1(s.sfc, syt)];
    Fill(s.layout, headed, frames, midi, |frames|)
  }

  /** A packet, received unmodified, is accepted if and only if the counters
      agree, with as many blocks as were sent ... */
  lemma PacketAccepted(s: Setup, area: seq<Quadlet>, dbc: nat, syt: nat, frames: seq<seq<Quadlet>>, midi: seq<Quadlet>,
                       expected: nat)
    requires dbc < 0x100 && syt < 0x1_0000 && expected < 0x100
    requires |midi| == |frames| && DATA <= |area| && Slot(DATA, s.layout.quadlets, |frames|) <= |area|
    requires forall i :: 0 <= i < |frames| ==> |frames[i]| == s.layout.channels
    ensures var n := |frames|; var packet := OutPacket(s, area, dbc, syt, frames, midi);
            Receive(NO_QUIRKS, expected, s.layout.quadlets, s.interval, packet[0], packet[1],
                    2 + n * s.layout.quadlets) ==
            if dbc == expected then Accepted(n, dbc, (dbc + n) % 0x100) else Failed
  {
    var headed := area[0 := Header0(s.nodeField, s.layout.quadlets, dbc)][1 := Header1(s.sfc, syt)];
    FillReads(s.layout, headed, frames, midi, |frames|);
    ReceiveSent(s.nodeField, s.layout.quadlets, dbc, s.sfc, syt, |frames|, expected, s.interval);
  }

  /** ... and then every sample arrives with its low 8 bits cleared, and the
      MIDI quadlets arrive unchanged. */
  lemma PacketArrives(s: Setup, area: seq<Quadlet>, dbc: nat, syt: nat, frames: seq<seq<Quadlet>>, midi: seq<Quadlet>)
    requires dbc < 0x100 && syt < 0x1_0000
    requires |midi| == |frames| && DATA <= |area| && Slot(DATA, s.layout.quadlets, |frames|) <= |area|
    requires forall i :: 0 <= i < |frames| ==> |frames[i]| == s.layout.channels
    ensures var n := |frames|; var packet := OutPacket(s, area, dbc, syt, EncodeFrames(frames), midi);
            && DecodeFrames(GetPcm(s.layout, packet, n)) == Keep24Frames(frames)
            && (s.layout.midiPorts > 0 ==> GetMidi(s.layout, packet, n) == Singles(midi))
  {
    var headed := area[0 := Header0(s.nodeField, s.layout.quadlets, dbc)][1 := Header1(s.sfc, syt)];
    FillReads(s.layout, headed, EncodeFrames(frames), midi, |frames|);
    KeepFrames(frames);
  }

  /** What the quadlets of a packet say: header fields, PCM and MIDI. */
  lemma PacketShows(s: Setup, area: seq<Quadlet>, dbc: nat, syt: nat, frames: seq<seq<Quadlet>>, midi: seq<Quadlet>)
    requires dbc < 0x100 && syt < 0x1_0000
    requires |midi| == |frames| && DATA <= |area| && Slot(DATA, s.layout.quadlets, |frames|) <= |area|
    requires forall i :: 0 <= i < |frames| ==> |frames[i]| == s.layout.channels
    ensures DATA <= Slot(DATA, s.layout.quadlets, |frames|)
    ensures var packet := OutPacket(s, area, dbc, syt, frames, midi)[..Slot(DATA, s.layout.quadlets, |frames|)];
            && DbcField(packet[0]) == dbc && DbsField(packet[0]) == s.layout.quadlets
            && SidField(packet[0]) * 0x100_0000 == s.nodeField
            && FmtField(packet[1]) == 0x10 && FdfField(packet[1]) == s.sfc && SytOf(packet[1]) == syt
            && GetPcm(s.layout, packet, |frames|) == frames
            && (s.layout.midiPorts > 0 ==> GetMidi(s.layout, packet, |frames|) == Singles(midi))
  {
    var headed := area[0 := Header0(s.nodeField, s.layout.quadlets, dbc)][1 := Header1(s.sfc, syt)];
    FillReads(s.layout, headed, frames, midi, |frames|);
    Header0Decodes(s.nodeField, s.layout.quadlets, dbc);
    Header1Decodes(s.sfc, syt);
    SlotOrder(DATA, s.layout.quadlets, 0, |frames| + 1);
    if |frames| > 0 {
      SlotOrder(DATA, s.layout.quadlets, 0, |frames|);
    }
    GetBlocksPrefix(Fill(s.layout, headed, frames, midi, |frames|), DATA, s.layout.quadlets, s.layout.positions,
                    s.layout.channels, |frames|, Slot(DATA, s.layout.quadlets, |frames|));
    if s.layout.midiPorts > 0 {
      GetBlocksPrefix(Fill(s.layout, headed, frames, midi, |frames|), DATA, s.layout.quadlets, [s.layout.midiPosition],
                      1, |frames|, Slot(DATA, s.layout.quadlets, |frames|));
    }
  }

  function Keep24Frames(frames: seq<seq<Quadlet>>): (r: seq<seq<Quadlet>>)
    ensures |r| == |frames| && forall i :: 0 <= i < |frames| ==> r[i] == Keep24Frame(frames[i])
  {
    seq(|frames|, i requires 0 <= i < |frames| => Keep24Frame(frames[i]))
  }

  lemma KeepFrames(frames: seq<seq<Quadlet>>)
    ensures DecodeFrames(EncodeFrames(frames)) == Keep24Frames(frames)
  {
    forall i | 0 <= i < |frames|
      ensures DecodeFrames(EncodeFrames(frames))[i] == Keep24Frames(frames)[i]
    {
      FrameRoundTrip(frames[i]);
    }
  }

  // ---------------------------------------------------------------------
  // Any number of packets
  // ---------------------------------------------------------------------

  /** The two streams: counters, ring pointers, the capture ring, and the frames
      that have gone out of the playback ring and into the capture ring. */
  datatype Link = Link(dbc: nat, expected: nat, alive: bool, outPointer: nat, inPointer: nat, capture: seq<Quadlet>,
                       sent: seq<seq<Quadlet>>, received: seq<seq<Quadlet>>)

  /** One packet time: what the playback ring and the packet buffer hold then,
      the timestamp, the number of data blocks, and the state of the MIDI ports. */
  datatype Tick = Tick(playback: seq<Quadlet>, area: seq<Quadlet>, syt: nat, blocks: nat, ports: Ports)

  ghost predicate IsTick(s: Setup, outSize: nat, inSize: nat, t: Tick) {
    && |t.playback| == FrameStart(s.layout.channels, outSize)
    && DATA <= |t.area| && Slot(DATA, s.layout.quadlets, t.blocks) <= |t.area|
    && t.syt < 0x1_0000 && t.blocks <= outSize && t.blocks <= inSize
  }

  ghost predicate IsLink(s: Setup, outSize: nat, inSize: nat, l: Link) {
    && l.dbc < 0x100 && l.expected < 0x100 && l.outPointer < outSize && l.inPointer < inSize
    && |l.capture| == FrameStart(s.layout.channels, inSize)
  }

  /** The frames of a packet: consecutive frames of the playback ring. */
  function FramesOf(s: Setup, outSize: nat, pointer: nat, t: Tick): (r: seq<seq<Quadlet>>)
    requires |t.playback| == FrameStart(s.layout.channels, outSize) && pointer < outSize && t.blocks <= outSize
    ensures |r| == t.blocks && forall i :: 0 <= i < |r| ==> |r[i]| == s.layout.channels
  {
    RingFits(pointer, outSize, s.layout.channels, t.blocks);
    Frames(t.playback, FrameStart(s.layout.channels, pointer), outSize - pointer, s.layout.channels, t.blocks)
  }

  lemma FramesInOrder(s: Setup, outSize: nat, pointer: nat, t: Tick, i: nat)
    requires |t.playback| == FrameStart(s.layout.channels, outSize) && pointer < outSize && i < t.blocks <= outSize
    ensures var f := RingIndex(pointer, outSize, i);
            f < outSize && FramesOf(s, outSize, pointer, t)[i] == View(t.playback, s.layout.channels, outSize)[f]
  {
    RingFits(pointer, outSize, s.layout.channels, t.blocks);
    SourceIsRingFrame(pointer, outSize, s.layout.channels, i);
    ViewAt(t.playback, s.layout.channels, outSize, RingIndex(pointer, outSize, i));
  }

  ghost function PacketOf(s: Setup, outSize: nat, l: Link, t: Tick): (r: seq<Quadlet>)
    requires l.dbc < 0x100 && l.outPointer < outSize
    requires |t.playback| == FrameStart(s.layout.channels, outSize) && t.blocks <= outSize && t.syt < 0x1_0000
    requires DATA <= |t.area| && Slot(DATA, s.layout.quadlets, t.blocks) <= |t.area|
    ensures |r| == |t.area|
  {
    var frames := FramesOf(s, outSize, l.outPointer, t);
    OutPacket(s, t.area, l.dbc, t.syt, EncodeFrames(frames), FillMidi(s.sfc, l.dbc, t.ports, t.blocks).1)
  }

  /** The sending side's part of a step. */
  function Transmit(s: Setup, outSize: nat, l: Link, t: Tick): Link
    requires |t.playback| == FrameStart(s.layout.channels, outSize) && l.outPointer < outSize && t.blocks <= outSize
  {
    l.(dbc := (l.dbc + t.blocks) % 0x100, outPointer := NextPointer(l.outPointer, outSize, t.blocks),
       sent := l.sent + FramesOf(s, outSize, l.outPointer, t))
  }

  /** The receiving side's part: n blocks with these frames have been accepted. */
  function Deliver(s: Setup, inSize: nat, l: Link, got: seq<seq<Quadlet>>, next: nat): (r: Link)
    requires |l.capture| == FrameStart(s.layout.channels, inSize) && l.inPointer < inSize && |got| <= inSize
    requires forall i :: 0 <= i < |got| ==> |got[i]| == s.layout.channels
    ensures |r.capture| == |l.capture|
  {
    RingFits(l.inPointer, inSize, s.layout.channels, |got|);
    l.(expected := next % 0x100, inPointer := NextPointer(l.inPointer, inSize, |got|), received := l.received + got,
       capture := Store(l.capture, FrameStart(s.layout.channels, l.inPointer), inSize - l.inPointer,
                        s.layout.channels, got, |got|))
  }

  /** An accepted packet of n blocks; one that does not fit would end the stream. */
  ghost function Accept(s: Setup, inSize: nat, l: Link, packet: seq<Quadlet>, n: nat, next: nat): (r: Link)
    requires |l.capture| == FrameStart(s.layout.channels, inSize) && l.inPointer < inSize && l.expected < 0x100
    ensures |r.capture| == |l.capture| && r.inPointer < inSize && r.expected < 0x100
    ensures r.dbc == l.dbc && r.outPointer == l.outPointer
  {
    if n <= inSize && Slot(DATA, s.layout.quadlets, n) <= |packet|
    then Deliver(s, inSize, l, DecodeFrames(GetPcm(s.layout, packet, n)), next)
    else l.(alive := false)
  }

  /** handle_out_packet on one side, handle_in_packet on the other. */
  ghost function LinkStep(s: Setup, outSize: nat, inSize: nat, l: Link, t: Tick): (r: Link)
    requires IsTick(s, outSize, inSize, t) && IsLink(s, outSize, inSize, l)
    ensures IsLink(s, outSize, inSize, r)
  {
    var packet := PacketOf(s, outSize, l, t);
    var out := Transmit(s, outSize, l, t);
    match Receive(NO_QUIRKS, l.expected, s.layout.quadlets, s.interval, packet[0], packet[1],
                  2 + t.blocks * s.layout.quadlets)
    case Accepted(n, _, next) =>
      Accept(s, inSize, out, packet, n, next)
    case Ignored => out
    case Failed => out.(alive := false)
  }

  /** The state after the first n packets. */
  ghost function After(s: Setup, outSize: nat, inSize: nat, start: Link, ticks: seq<Tick>, n: nat): (r: Link)
    requires IsLink(s, outSize, inSize, start)
    requires n <= |ticks| && forall k :: 0 <= k < n ==> IsTick(s, outSize, inSize, ticks[k])
    ensures IsLink(s, outSize, inSize, r)
  {
    if n == 0 then start else LinkStep(s, outSize, inSize, After(s, outSize, inSize, start, ticks, n - 1), ticks[n - 1])
  }

  /** Both sides agree and the capture ring shows what was sent. */
  ghost predicate InStep(s: Setup, inSize: nat, l: Link) {
    && l.alive && l.dbc == l.expected
    && l.received == Keep24Frames(l.sent)
    && |l.capture| == FrameStart(s.layout.channels, inSize)
    && Holds(View(l.capture, s.layout.channels, inSize), l.inPointer, l.received)
  }

  lemma StepAccepts(s: Setup, outSize: nat, inSize: nat, l: Link, t: Tick)
    requires IsTick(s, outSize, inSize, t) && IsLink(s, outSize, inSize, l) && l.dbc == l.expected
    ensures LinkStep(s, outSize, inSize, l, t) ==
            Deliver(s, inSize, Transmit(s, outSize, l, t), Keep24Frames(FramesOf(s, outSize, l.outPointer, t)),
                    (l.dbc + t.blocks) % 0x100)
  {
    hide Deliver, FramesOf;
    var frames := FramesOf(s, outSize, l.outPointer, t);
    var midi := FillMidi(s.sfc, l.dbc, t.ports, t.blocks).1;
    PacketAccepted(s, t.area, l.dbc, t.syt, EncodeFrames(frames), midi, l.expected);
    PacketArrives(s, t.area, l.dbc, t.syt, frames, midi);
  }

  lemma DeliverKeepsInStep(s: Setup, inSize: nat, l: Link, frames: seq<seq<Quadlet>>, before: Link)
    requires |l.capture| == FrameStart(s.layout.channels, inSize) && l.inPointer < inSize && |frames| <= inSize
    requires forall i :: 0 <= i < |frames| ==> |frames[i]| == s.layout.channels
    requires InStep(s, inSize, before) && l.alive && l.sent == before.sent + frames && l.dbc < 0x100
    requires l.received == before.received && l.capture == before.capture && l.inPointer == before.inPointer
    ensures InStep(s, inSize, Deliver(s, inSize, l, Keep24Frames(frames), l.dbc))
  {
    var got := Keep24Frames(frames);
    StoreIsFrames(l.capture, inSize, s.layout.channels, l.inPointer, got, |got|);
    StoreHolds(View(l.capture, s.layout.channels, inSize), l.inPointer, l.received, got, |got|);
    assert got[..|got|] == got;
    Keep24Concat(before.sent, frames);
  }

  lemma Keep24Concat(a: seq<seq<Quadlet>>, b: seq<seq<Quadlet>>)
    ensures Keep24Frames(a + b) == Keep24Frames(a) + Keep24Frames(b)
  {
  }

  lemma StepKeepsInStep(s: Setup, outSize: nat, inSize: nat, l: Link, t: Tick)
    requires IsTick(s, outSize, inSize, t) && IsLink(s, outSize, inSize, l) && InStep(s, inSize, l)
    ensures InStep(s, inSize, LinkStep(s, outSize, inSize, l, t))
  {
    hide LinkStep;
    StepAccepts(s, outSize, inSize, l, t);
    DeliverKeepsInStep(s, inSize, Transmit(s, outSize, l, t), FramesOf(s, outSize, l.outPointer, t), l);
  }

  /** Loopback: from equal counters on, over any run of packets of any sizes,
      with any rates, timestamps and MIDI traffic, no discontinuity is ever
      reported, the counters stay equal, and the capture ring holds the frames
      taken from the playback ring, in order, each sample's low 8 bits cleared,
      across wraps of both rings. */
  lemma {:induction false} Loopback(s: Setup, outSize: nat, inSize: nat, start: Link, ticks: seq<Tick>, n: nat)
    requires IsLink(s, outSize, inSize, start)
    requires n <= |ticks| && forall k :: 0 <= k < n ==> IsTick(s, outSize, inSize, ticks[k])
    requires start.alive && start.dbc == start.expected && start.sent == [] && start.received == []
    ensures InStep(s, inSize, After(s, outSize, inSize, start, ticks, n))
  {
    hide LinkStep;
    if n > 0 {
      Loopback(s, outSize, inSize, start, ticks, n - 1);
      StepKeepsInStep(s, outSize, inSize, After(s, outSize, inSize, start, ticks, n - 1), ticks[n - 1]);
    }
  }

  function Firsts(blocks: seq<seq<Quadlet>>): seq<Quadlet>
    requires forall i :: 0 <= i < |blocks| ==> |blocks[i]| > 0
  {
    seq(|blocks|, i requires 0 <= i < |blocks| => blocks[i][0])
  }

  /** ... and each port receives exactly the byte, if any, that was sent in the
      packet from the port with its number. */
  lemma MidiArrives(s: Setup, outSize: nat, inSize: nat, l: Link, t: Tick, port: nat)
    requires IsTick(s, outSize, inSize, t) && IsLink(s, outSize, inSize, l) && InStep(s, inSize, l)
    requires s.layout.midiPorts > 0 && port < PORTS
    ensures var blocks := GetMidi(s.layout, PacketOf(s, outSize, l, t), t.blocks);
            var sent := TestPort(s.sfc, t.ports[port]).1;
            && |blocks| == t.blocks && (forall i :: 0 <= i < |blocks| ==> |blocks[i]| > 0)
            && PullMidi(l.expected, Firsts(blocks), t.blocks, port) ==
               if BlockOfPort(l.dbc, port) < t.blocks && sent.Some? then [sent.value] else []
  {
    var midi := FillMidi(s.sfc, l.dbc, t.ports, t.blocks).1;
    hide FillMidi, TestPort, PullMidi, OutPacket, FramesOf, EncodeFrames;
    PacketArrives(s, t.area, l.dbc, t.syt, FramesOf(s, outSize, l.outPointer, t), midi);
    assert Firsts(Singles(midi)) == midi && midi[..t.blocks] == midi;
    PullFill(s.sfc, l.dbc, t.ports, midi, t.blocks, port);
  }
}
