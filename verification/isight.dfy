/** The audio stream of the iSight camera (sound/firewire/isight.c): packets with
    32-bit sample numbers, laid into the PCM buffer so that every sample keeps
    its place in time. */
module Isight {
  import opened Rings

  /** Big-endian 16-bit samples of both channels, as received. */
  datatype Frame = Frame(left: int, right: int)

  const SILENCE := Frame(0, 0)
  const MAX_FRAMES_PER_PACKET := 475
  const PAYLOAD_HEADER := 16
  const SIGNATURE := 0x73676874
  const QUEUE_LENGTH := 20
  const WRAP := 0x1_0000_0000

  type Word = n: nat | n < WRAP

  /** Frames from the expected sample number to the announced one, in 32-bit
      arithmetic. */
  function Gap(expected: Word, total: Word): Word { (total - expected) % WRAP }

  function Silence(n: nat): seq<Frame> { seq(n, _ => SILENCE) }

  // ---------------------------------------------------------------------
  // One packet
  // ---------------------------------------------------------------------

  /** The parts of struct isight and of the PCM runtime that packets change;
      `frames` counts the frames by which the buffer pointer has advanced. */
  datatype Stream = Stream(buffer: seq<Frame>, pointer: nat, totalSamples: Word, firstPacket: bool, frames: nat)

  predicate Valid(s: Stream) { s.pointer < |s.buffer| && MAX_FRAMES_PER_PACKET <= |s.buffer| < WRAP }

  type LiveStream = s: Stream | Valid(s) witness Stream(seq(475, _ => SILENCE), 0, 0, true, 0)

  datatype Packet = Packet(total: Word, samples: seq<Frame>)

  type AudioPacket = p: Packet | |p.samples| <= MAX_FRAMES_PER_PACKET witness Packet(0, [])

  /** Frames laid down at the buffer pointer. */
  function Lay(s: LiveStream, data: seq<Frame>): (r: LiveStream)
    ensures |r.buffer| == |s.buffer|
  {
    s.(buffer := Store(s.buffer, s.pointer, data), pointer := Forward(s.pointer, |data|, |s.buffer|),
       frames := s.frames + |data|)
  }

  /** isight_dropped_samples; a gap of a whole buffer or more aborts the stream. */
  function Dropped(s: LiveStream, total: Word): LiveStream {
    if Gap(s.totalSamples, total) < |s.buffer| then Lay(s, Silence(Gap(s.totalSamples, total))) else s
  }

  predicate Aborts(s: LiveStream, p: AudioPacket) {
    !s.firstPacket && Gap(s.totalSamples, p.total) >= |s.buffer|
  }

  /** The sample number checked, before the samples are taken. */
  function Synchronized(s: LiveStream, total: Word): LiveStream {
    if total == s.totalSamples then s
    else (if s.firstPacket then s else Dropped(s, total)).(firstPacket := false, totalSamples := total)
  }

  /** isight_packet on a well-formed payload while PCM is running. */
  function Receive(s: LiveStream, p: AudioPacket): LiveStream {
    var t := Synchronized(s, p.total);
    Lay(t, p.samples).(totalSamples := (t.totalSamples + |p.samples|) % WRAP)
  }

  /** The same while PCM is stopped: only the sample number is followed. */
  function Skip(s: LiveStream, p: AudioPacket): LiveStream {
    s.(firstPacket := s.firstPacket && p.total == s.totalSamples, totalSamples := (p.total + |p.samples|) % WRAP)
  }

  // ---------------------------------------------------------------------
  // struct isight, changed in place
  // ---------------------------------------------------------------------

  datatype Payload = Payload(length: nat, signature: nat, count: nat, total: Word, samples: seq<Frame>)

  /** A received buffer has room for the largest packet, and no more. */
  type Buffer = p: Payload |
    |p.samples| == MAX_FRAMES_PER_PACKET && p.length <= PAYLOAD_HEADER + 4 * MAX_FRAMES_PER_PACKET
    witness Payload(0, 0, 0, 0, seq(475, _ => SILENCE))

  predicate WellFormed(p: Buffer) {
    p.length >= PAYLOAD_HEADER && p.signature == SIGNATURE && p.count <= (p.length - PAYLOAD_HEADER) / 4
  }

  function PacketOf(p: Buffer): AudioPacket
    requires WellFormed(p)
  {
    Packet(p.total, p.samples[..p.count])
  }

  /** What a received buffer has to say to be used, and which samples it then gives. */
  lemma UsedIff(p: Buffer)
    ensures WellFormed(p) <==> p.length >= 16 && p.signature == 0x7367_6874 && 16 + 4 * p.count <= p.length
    ensures WellFormed(p) ==>
              && PacketOf(p).total == p.total && |PacketOf(p).samples| == p.count <= 475
              && forall i :: 0 <= i < p.count ==> PacketOf(p).samples[i] == p.samples[i]
  {
  }

  class IsightStream {
    const dmaArea: array<Frame>
    const periodSize: nat
    var pcmRunning: bool
    var firstPacket: bool
    var packetIndex: int
    var totalSamples: Word
    var bufferPointer: nat
    var periodCounter: nat
    var aborted: bool
    ghost var frames: nat
    ghost var periods: nat

    ghost function View(): Stream
      reads this, dmaArea
    {
      Stream(dmaArea[..], bufferPointer, totalSamples, firstPacket, frames)
    }

    /** The pointer is in the buffer, and every frame is either in a reported
        period or in the counter. */
    ghost predicate Ready()
      reads this, dmaArea
    {
      && Valid(View()) && -1 <= packetIndex < QUEUE_LENGTH
      && periods * periodSize + periodCounter == frames
    }

    /** The stream once it has been prepared and started. */
    constructor (dmaArea: array<Frame>, periodSize: nat, staleTotal: Word)
      requires MAX_FRAMES_PER_PACKET <= periodSize && 2 * periodSize <= dmaArea.Length < WRAP
      ensures Ready() && this.dmaArea == dmaArea && this.periodSize == periodSize
      ensures View() == Stream(dmaArea[..], 0, staleTotal, true, 0) && packetIndex == 0 && !aborted
    {
      this.dmaArea, this.periodSize := dmaArea, periodSize;
      pcmRunning, firstPacket, packetIndex, totalSamples := true, true, 0, staleTotal;
      bufferPointer, periodCounter, aborted, frames, periods := 0, 0, false, 0, 0;
    }

    /** isight_update_pointers. */
    method UpdatePointers(count: nat) returns (elapsed: bool)
      requires Ready() && count <= dmaArea.Length
      modifies `bufferPointer, `periodCounter, `frames, `periods
      ensures Ready() && frames == old(frames) + count
      ensures bufferPointer == Forward(old(bufferPointer), count, dmaArea.Length)
      ensures elapsed <==> old(periodCounter) + count >= periodSize
      ensures periods == old(periods) + if elapsed then 1 else 0
    {
      ForwardIsWrap(bufferPointer, count, dmaArea.Length);
      var ptr := bufferPointer + count;
      if ptr >= dmaArea.Length {
        ptr := ptr - dmaArea.Length;
      }
      bufferPointer := ptr;
      frames := frames + count;
      periodCounter := periodCounter + count;
      elapsed := periodCounter >= periodSize;
      if elapsed {
        periodCounter := periodCounter - periodSize;
        assert (periods + 1) * periodSize == periods * periodSize + periodSize;
        periods := periods + 1;
      }
    }

    /** The copy of isight_samples: in one part, or in two around the end. */
    method CopyFrames(data: seq<Frame>)
      requires bufferPointer < dmaArea.Length && |data| <= dmaArea.Length
      modifies dmaArea
      ensures dmaArea[..] == Store(old(dmaArea[..]), bufferPointer, data)
    {
      ghost var before := dmaArea[..];
      if bufferPointer + |data| <= dmaArea.Length {
        StoreStraight(before, bufferPointer, data);
        CopyBlock(dmaArea, bufferPointer, data);
      } else {
        StoreAround(before, bufferPointer, data);
        var count1 := dmaArea.Length - bufferPointer;
        CopyBlock(dmaArea, bufferPointer, data[..count1]);
        ghost var first := dmaArea[..];
        assert first == before[..bufferPointer] + data[..count1];
        CopyBlock(dmaArea, 0, data[count1..]);
        assert dmaArea[..] == data[count1..] + first[|data| - count1..];
      }
    }

    /** isight_samples. */
    method Samples(samples: seq<Frame>)
      requires Ready() && |samples| <= MAX_FRAMES_PER_PACKET
      modifies this, dmaArea
      ensures Ready() && packetIndex == old(packetIndex) && aborted == old(aborted) && pcmRunning == old(pcmRunning)
      ensures View() == if pcmRunning then Lay(old(View()), samples) else old(View())
    {
      if !pcmRunning {
        return;
      }
      CopyFrames(samples);
      var _ := UpdatePointers(|samples|);
    }

    /** isight_dropped_samples. */
    method DroppedSamples(total: Word)
      requires Ready()
      modifies this, dmaArea
      ensures Ready() && packetIndex == old(packetIndex) && pcmRunning == old(pcmRunning)
      ensures View() == if pcmRunning then Dropped(old(View()), total) else old(View())
      ensures aborted <==> old(aborted) || (pcmRunning && Gap(old(totalSamples), total) >= dmaArea.Length)
    {
      if !pcmRunning {
        return;
      }
      var dropped := (total - totalSamples) % WRAP;
      if dropped < dmaArea.Length {
        CopyFrames(Silence(dropped));
        var _ := UpdatePointers(dropped);
      } else {
        aborted := true;
      }
    }

    /** isight_packet; `queued` is false if the buffer could not be queued again. */
    method HandlePacket(payload: Buffer, queued: bool)
      requires Ready()
      modifies this, dmaArea
      ensures Ready() && pcmRunning == old(pcmRunning)
      ensures View() == if old(packetIndex) < 0 || !WellFormed(payload) then old(View())
                        else if pcmRunning then Receive(old(View()), PacketOf(payload))
                        else Skip(old(View()), PacketOf(payload))
      ensures packetIndex == if old(packetIndex) < 0 || !queued then -1 else (old(packetIndex) + 1) % 20
      ensures aborted <==>
                || old(aborted)
                || (old(packetIndex) >= 0 && !queued)
                || (old(packetIndex) >= 0 && WellFormed(payload) && pcmRunning
                    && Aborts(old(View()), PacketOf(payload)))
    {
      if packetIndex < 0 {
        return;
      }
      if payload.length >= PAYLOAD_HEADER && payload.signature == SIGNATURE {
        if payload.count <= (payload.length - PAYLOAD_HEADER) / 4 {
          TakePacket(payload.total, payload.samples[..payload.count]);
        }
      }
      if !queued {
        aborted := true;
        packetIndex := -1;
        return;
      }
      packetIndex := if packetIndex + 1 >= QUEUE_LENGTH then 0 else packetIndex + 1;
    }

    method TakePacket(total: Word, samples: seq<Frame>)
      requires Ready() && |samples| <= MAX_FRAMES_PER_PACKET
      modifies this, dmaArea
      ensures Ready() && packetIndex == old(packetIndex) && pcmRunning == old(pcmRunning)
      ensures View() == if pcmRunning then Receive(old(View()), Packet(total, samples))
                        else Skip(old(View()), Packet(total, samples))
      ensures aborted <==> old(aborted) || (pcmRunning && Aborts(old(View()), Packet(total, samples)))
    {
      if total != totalSamples {
        if !firstPacket {
          DroppedSamples(total);
        }
        firstPacket := false;
        totalSamples := total;
      }
      Samples(samples);
      totalSamples := (totalSamples + |samples|) % WRAP;
    }
  }

  // ---------------------------------------------------------------------
  // The timeline
  // ---------------------------------------------------------------------

  function Run(s: LiveStream, packets: seq<AudioPacket>): (r: LiveStream)
    ensures |r.buffer| == |s.buffer|
    decreases |packets|
  {
    if packets == [] then s else Run(Receive(s, packets[0]), packets[1..])
  }

  /** Sample numbers after a packet. */
  function Expected(p: AudioPacket): Word { (p.total + |p.samples|) % WRAP }

  /** No packet leaves a gap of a whole buffer or more. */
  predicate GapsFit(expected: Word, packets: seq<AudioPacket>, size: nat)
    decreases |packets|
  {
    packets == [] || (Gap(expected, packets[0].total) < size && GapsFit(Expected(packets[0]), packets[1..], size))
  }

  /** All frames from the expected sample number on: gaps are silent. */
  function Timeline(expected: Word, packets: seq<AudioPacket>): seq<Frame>
    decreases |packets|
  {
    if packets == [] then []
    else Silence(Gap(expected, packets[0].total)) + packets[0].samples + Timeline(Expected(packets[0]), packets[1..])
  }

  /** Where packet i starts in the timeline. */
  function Start(expected: Word, packets: seq<AudioPacket>, i: nat): nat
    requires i < |packets|
    decreases i
  {
    Gap(expected, packets[0].total) +
    if i == 0 then 0 else |packets[0].samples| + Start(Expected(packets[0]), packets[1..], i - 1)
  }

  lemma LayTwice(s: LiveStream, a: seq<Frame>, b: seq<Frame>)
    ensures Lay(Lay(s, a), b) == Lay(s, a + b)
  {
    StoreAdd(s.buffer, s.pointer, a, b);
    ForwardAdd(s.pointer, |a|, |b|, |s.buffer|);
  }

  lemma ReceiveLays(s: LiveStream, p: AudioPacket)
    requires !s.firstPacket && Gap(s.totalSamples, p.total) < |s.buffer|
    ensures Receive(s, p) == Lay(s, Silence(Gap(s.totalSamples, p.total)) + p.samples).(totalSamples := Expected(p))
  {
    var silence := Silence(Gap(s.totalSamples, p.total));
    LayTwice(s, silence, p.samples);
    if p.total == s.totalSamples {
      assert silence + p.samples == p.samples;
    }
  }

  /** A run lays the timeline into the ring, from the pointer on. */
  lemma {:induction false} RunLaysTimeline(s: LiveStream, packets: seq<AudioPacket>)
    requires !s.firstPacket && GapsFit(s.totalSamples, packets, |s.buffer|)
    ensures Run(s, packets).buffer == Store(s.buffer, s.pointer, Timeline(s.totalSamples, packets))
    ensures Run(s, packets).pointer == Forward(s.pointer, |Timeline(s.totalSamples, packets)|, |s.buffer|)
    decreases |packets|
  {
    if packets != [] {
      var p := packets[0];
      var data := Silence(Gap(s.totalSamples, p.total)) + p.samples;
      var later := Timeline(Expected(p), packets[1..]);
      ReceiveLays(s, p);
      RunLaysTimeline(Receive(s, p), packets[1..]);
      StoreAdd(s.buffer, s.pointer, data, later);
      ForwardAdd(s.pointer, |data|, |later|, |s.buffer|);
    }
  }

  lemma AddWrapped(a: nat, b: nat)
    ensures (a % WRAP + b) % WRAP == (a + b) % WRAP
  {
    var q, r := a / WRAP, a % WRAP;
    assert a + b == q * WRAP + (r + b);
  }

  lemma GapReaches(expected: Word, total: Word)
    ensures (expected + Gap(expected, total)) % WRAP == total
  {
  }

  /** A packet starts at its own sample number, unwrapped and counted from the
      expected one. */
  lemma {:induction false} StartIsNumber(expected: Word, packets: seq<AudioPacket>, i: nat)
    requires i < |packets|
    ensures (expected + Start(expected, packets, i)) % WRAP == packets[i].total
    decreases i
  {
    var p := packets[0];
    GapReaches(expected, p.total);
    if i > 0 {
      var later := Start(Expected(p), packets[1..], i - 1);
      StartIsNumber(Expected(p), packets[1..], i - 1);
      AddWrapped(p.total + |p.samples|, later);
      AddWrapped(expected + Gap(expected, p.total), |p.samples| + later);
    }
  }

  /** Every sample has its place in the timeline. */
  lemma {:induction false} SampleInTimeline(expected: Word, packets: seq<AudioPacket>, i: nat, j: nat)
    requires i < |packets| && j < |packets[i].samples|
    ensures Start(expected, packets, i) + j < |Timeline(expected, packets)|
    ensures Timeline(expected, packets)[Start(expected, packets, i) + j] == packets[i].samples[j]
    decreases i
  {
    if i > 0 {
      SampleInTimeline(Expected(packets[0]), packets[1..], i - 1, j);
    }
  }

  /** Frames before packet i that no packet carries are silent. */
  lemma {:induction false} GapIsSilent(expected: Word, packets: seq<AudioPacket>, i: nat, k: nat)
    requires i < |packets| && k < Start(expected, packets, i)
    requires i == 0 || k >= Start(expected, packets, i - 1) + |packets[i - 1].samples|
    ensures k < |Timeline(expected, packets)| && Timeline(expected, packets)[k] == Frame(0, 0)
    decreases i
  {
    var lead := Gap(expected, packets[0].total) + if i == 0 then 0 else |packets[0].samples|;
    if i > 0 {
      StartsAfter(expected, packets, i - 1);
      GapIsSilent(Expected(packets[0]), packets[1..], i - 1, k - lead);
    }
  }

  lemma {:induction false} StartsAfter(expected: Word, packets: seq<AudioPacket>, i: nat)
    requires i < |packets|
    ensures Start(expected, packets, i) + |packets[i].samples| >= Gap(expected, packets[0].total) + |packets[0].samples|
  {
  }

  /** The timeline theorem: until a whole buffer has followed it, every device
      sample is found where its unwrapped sample number says, counted from the
      first expected one, around the ring. */
  lemma SampleLands(s: LiveStream, packets: seq<AudioPacket>, i: nat, j: nat)
    requires !s.firstPacket && GapsFit(s.totalSamples, packets, |s.buffer|)
    requires i < |packets| && j < |packets[i].samples|
    ensures var offset := Start(s.totalSamples, packets, i) + j;
            && (s.totalSamples + offset - j) % 0x1_0000_0000 == packets[i].total
            && (|Timeline(s.totalSamples, packets)| <= offset + |s.buffer| ==>
                  Run(s, packets).buffer[Forward(s.pointer, offset, |s.buffer|)] == packets[i].samples[j])
  {
    RunLaysTimeline(s, packets);
    StartIsNumber(s.totalSamples, packets, i);
    SampleInTimeline(s.totalSamples, packets, i, j);
    var offset := Start(s.totalSamples, packets, i) + j;
    if |Timeline(s.totalSamples, packets)| <= offset + |s.buffer| {
      StoredLast(s.buffer, s.pointer, Timeline(s.totalSamples, packets), offset);
    }
  }

  /** How many frames a packet adds, and when it ends the stream: behind the first one a
      gap of less than a buffer is filled, and a larger one is left out and aborts. */
  lemma AbortIff(s: LiveStream, p: AudioPacket)
    ensures var gap := (p.total - s.totalSamples) % 0x1_0000_0000; var after := Receive(s, p);
            && (Aborts(s, p) <==> !s.firstPacket && gap >= |s.buffer|)
            && after.frames == s.frames + |p.samples| + (if s.firstPacket || Aborts(s, p) then 0 else gap)
            && (s.firstPacket || Aborts(s, p) ==> after.buffer == Store(s.buffer, s.pointer, p.samples))
  {
  }

  // ---------------------------------------------------------------------
  // The first packet
  // ---------------------------------------------------------------------

  /** All packets so far have happened to carry the expected numbers. */
  predicate Matches(expected: Word, packets: seq<AudioPacket>)
    decreases |packets|
  {
    packets == [] || (packets[0].total == expected && Matches(Expected(packets[0]), packets[1..]))
  }

  /** The flag for the first packet survives exactly as long as no sample number
      differs from the expected one, however many packets that takes. */
  lemma {:induction false} FirstPacketIff(s: LiveStream, packets: seq<AudioPacket>)
    requires s.firstPacket
    ensures Run(s, packets).firstPacket <==> Matches(s.totalSamples, packets)
    decreases |packets|
  {
    if packets != [] {
      if packets[0].total == s.totalSamples {
        FirstPacketIff(Receive(s, packets[0]), packets[1..]);
      } else {
        FlagStaysClear(Receive(s, packets[0]), packets[1..]);
      }
    }
  }

  lemma {:induction false} FlagStaysClear(s: LiveStream, packets: seq<AudioPacket>)
    requires !s.firstPacket
    ensures !Run(s, packets).firstPacket
    decreases |packets|
  {
    if packets != [] {
      FlagStaysClear(Receive(s, packets[0]), packets[1..]);
    }
  }

  lemma {:induction false} RunAppend(s: LiveStream, packets: seq<AudioPacket>, p: AudioPacket)
    ensures Run(s, packets + [p]) == Receive(Run(s, packets), p)
    decreases |packets|
  {
    if packets == [] {
      assert packets + [p] == [p] && [p][1..] == [];
    } else {
      assert (packets + [p])[1..] == packets[1..] + [p];
      RunAppend(Receive(s, packets[0]), packets[1..], p);
    }
  }

  // ---------------------------------------------------------------------
  // Packets while PCM is stopped
  // ---------------------------------------------------------------------

  function SkipAll(s: LiveStream, packets: seq<AudioPacket>): LiveStream
    decreases |packets|
  {
    if packets == [] then s else SkipAll(Skip(s, packets[0]), packets[1..])
  }

  /** Samples that come while PCM is stopped are lost, but their numbers are followed:
      the buffer stays as it is, the next expected number is the one behind the last
      packet, and the flag for the first packet survives as it does while PCM runs. */
  lemma {:induction false} SkippedAreFollowed(s: LiveStream, packets: seq<AudioPacket>)
    requires packets != []
    ensures var e, last := SkipAll(s, packets), packets[|packets| - 1];
            && e.buffer == s.buffer && e.pointer == s.pointer && e.frames == s.frames
            && e.totalSamples == (last.total + |last.samples|) % 0x1_0000_0000
            && e.totalSamples == Run(s, packets).totalSamples && e.firstPacket == Run(s, packets).firstPacket
    decreases |packets|
  {
    var t, u, rest := Skip(s, packets[0]), Receive(s, packets[0]), packets[1..];
    if rest != [] {
      SkippedAreFollowed(t, rest);
      SameNumbers(t, u, rest);
      assert rest[|rest| - 1] == packets[|packets| - 1];
    }
  }

  /** The numbers and the flag do not depend on the buffer. */
  lemma {:induction false} SameNumbers(s: LiveStream, t: LiveStream, packets: seq<AudioPacket>)
    requires s.totalSamples == t.totalSamples && s.firstPacket == t.firstPacket
    ensures Run(s, packets).totalSamples == Run(t, packets).totalSamples
    ensures Run(s, packets).firstPacket == Run(t, packets).firstPacket
    decreases |packets|
  {
    if packets != [] {
      SameNumbers(Receive(s, packets[0]), Receive(t, packets[0]), packets[1..]);
    }
  }

  // ---------------------------------------------------------------------
  // Gaps behind the first packet
  // ---------------------------------------------------------------------

  /** A real gap is left out of the buffer exactly if every packet since the
      stream was started has happened to carry the expected number, however many
      they are: then the packet's samples follow the last ones at once, and
      otherwise behind the missing samples' silence. */
  lemma GapFilledIff(s: LiveStream, packets: seq<AudioPacket>, p: AudioPacket)
    requires s.firstPacket
    requires 0 < Gap(Run(s, packets).totalSamples, p.total) < |s.buffer|
    ensures var before := Run(s, packets); var after := Run(s, packets + [p]);
            && (after.frames == before.frames + |p.samples| <==> Matches(s.totalSamples, packets))
            && (Matches(s.totalSamples, packets) ==>
                  after.buffer == Store(before.buffer, before.pointer, p.samples)
                  && after.pointer == Forward(before.pointer, |p.samples|, |s.buffer|))
            && (!Matches(s.totalSamples, packets) ==>
                  var data := Silence(Gap(before.totalSamples, p.total)) + p.samples;
                  after.buffer == Store(before.buffer, before.pointer, data)
                  && after.pointer == Forward(before.pointer, |data|, |s.buffer|))
  {
    RunAppend(s, packets, p);
    FirstPacketIff(s, packets);
    if !Matches(s.totalSamples, packets) {
      ReceiveLays(Run(s, packets), p);
    }
  }
}
