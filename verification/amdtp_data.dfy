/** The contents of data blocks: PCM samples as AM824 quadlets, the frames taken
    from and stored to a ring, and MIDI quadlets beside them. */
module AmdtpData {
  import opened PcmBlocks
  import opened AmdtpMidi

  /** (x >> 8) | 0x40000000 on unsigned 32-bit numbers. */
  function EncodeSample(x: Quadlet): Quadlet { x / 0x100 + 0x4000_0000 }

  /** q << 8 on unsigned 32-bit numbers. */
  function DecodeSample(q: Quadlet): Quadlet { q * 0x100 % 0x1_0000_0000 }

  /** What a 24-bit transport keeps of a sample. */
  function Keep24(x: Quadlet): Quadlet { x - x % 0x100 }

  lemma SampleRoundTrip(x: Quadlet)
    ensures DecodeSample(EncodeSample(x)) == Keep24(x)
  {
    assert EncodeSample(x) * 0x100 == Keep24(x) + 0x40 * 0x1_0000_0000;
  }

  /** A quadlet of multi-bit linear audio: label 0x40 over the upper 24 bits of a sample. */
  predicate Carries(q: Quadlet, sample: Quadlet) { q / 0x100_0000 == 0x40 && q % 0x100_0000 == sample / 0x100 }

  lemma EncodedCarries(x: Quadlet)
    ensures Carries(EncodeSample(x), x)
  {
  }

  /** A received quadlet's label is dropped, and its 24 bits become the upper ones. */
  lemma DecodedIs(q: Quadlet)
    ensures DecodeSample(q) == q % 0x100_0000 * 0x100
  {
    assert q * 0x100 == q % 0x100_0000 * 0x100 + q / 0x100_0000 * 0x1_0000_0000;
  }

  const SILENCE: Quadlet := 0x4000_0000

  function EncodeFrame(frame: seq<Quadlet>): (r: seq<Quadlet>)
    ensures |r| == |frame| && forall c :: 0 <= c < |frame| ==> r[c] == EncodeSample(frame[c])
  {
    seq(|frame|, c requires 0 <= c < |frame| => EncodeSample(frame[c]))
  }

  function DecodeFrame(frame: seq<Quadlet>): (r: seq<Quadlet>)
    ensures |r| == |frame| && forall c :: 0 <= c < |frame| ==> r[c] == DecodeSample(frame[c])
  {
    seq(|frame|, c requires 0 <= c < |frame| => DecodeSample(frame[c]))
  }

  function Keep24Frame(frame: seq<Quadlet>): (r: seq<Quadlet>)
    ensures |r| == |frame| && forall c :: 0 <= c < |frame| ==> r[c] == Keep24(frame[c])
  {
    seq(|frame|, c requires 0 <= c < |frame| => Keep24(frame[c]))
  }

  lemma FrameRoundTrip(frame: seq<Quadlet>)
    ensures DecodeFrame(EncodeFrame(frame)) == Keep24Frame(frame)
  {
    forall c | 0 <= c < |frame|
      ensures DecodeFrame(EncodeFrame(frame))[c] == Keep24Frame(frame)[c]
    {
      SampleRoundTrip(frame[c]);
    }
  }

  /** The frames a transfer of n blocks takes from a ring. */
  function Frames(ring: seq<Quadlet>, start: nat, wrap: nat, channels: nat, n: nat): (r: seq<seq<Quadlet>>)
    requires Fits(|ring|, start, wrap, channels, n)
    ensures |r| == n && forall i :: 0 <= i < n ==> |r[i]| == channels
    ensures forall i :: 0 <= i < n ==> r[i] == Frame(ring, start, wrap, channels, i)
  {
    if n == 0 then [] else
      Frames(ring, start, wrap, channels, n - 1) + [Frame(ring, start, wrap, channels, n - 1)]
  }

  function EncodeFrames(frames: seq<seq<Quadlet>>): (r: seq<seq<Quadlet>>)
    ensures |r| == |frames| && forall i :: 0 <= i < |frames| ==> r[i] == EncodeFrame(frames[i])
  {
    seq(|frames|, i requires 0 <= i < |frames| => EncodeFrame(frames[i]))
  }

  function DecodeFrames(frames: seq<seq<Quadlet>>): (r: seq<seq<Quadlet>>)
    ensures |r| == |frames| && forall i :: 0 <= i < |frames| ==> r[i] == DecodeFrame(frames[i])
  {
    seq(|frames|, i requires 0 <= i < |frames| => DecodeFrame(frames[i]))
  }

  function Silence(channels: nat, n: nat): (r: seq<seq<Quadlet>>)
    ensures |r| == n && forall i :: 0 <= i < n ==> |r[i]| == channels
  {
    seq(n, _ => seq(channels, _ => SILENCE))
  }

  /** The ring after n frames have been stored by a transfer. */
  function Store(ring: seq<Quadlet>, start: nat, wrap: nat, channels: nat, frames: seq<seq<Quadlet>>,
                 n: nat): (r: seq<Quadlet>)
    requires n <= |frames| && Fits(|ring|, start, wrap, channels, n)
    requires forall i :: 0 <= i < n ==> |frames[i]| == channels
    ensures |r| == |ring|
  {
    if n == 0 then ring else
      var at := Source(start, wrap, channels, n - 1);
      var before := Store(ring, start, wrap, channels, frames, n - 1);
      before[..at] + frames[n - 1] + before[at + channels..]
  }

  // ---------------------------------------------------------------------
  // A whole data area
  // ---------------------------------------------------------------------

  /** Where the channels of a stream sit in a data block. */
  datatype AnyLayout = Layout(quadlets: nat, channels: nat, positions: seq<nat>, midiPorts: nat, midiPosition: nat)

  ghost predicate IsLayout(l: AnyLayout) {
    && 0 < l.quadlets < 0x100
    && IsPlacement(l.positions, l.channels, l.quadlets)
    && (l.midiPorts > 0 ==>
          l.midiPosition < l.quadlets && forall c :: 0 <= c < l.channels ==> l.positions[c] != l.midiPosition)
  }

  /** Channels inside the block and at distinct positions. */
  type Layout = l: AnyLayout | IsLayout(l) witness Layout(1, 0, [], 0, 0)

  /** Index of the first data block behind the two CIP header quadlets. */
  const DATA := 2

  function Singles(quadlets: seq<Quadlet>): (r: seq<seq<Quadlet>>)
    ensures |r| == |quadlets| && forall i :: 0 <= i < |quadlets| ==> r[i] == [quadlets[i]]
  {
    seq(|quadlets|, i requires 0 <= i < |quadlets| => [quadlets[i]])
  }

  ghost function PutPcm(l: Layout, area: seq<Quadlet>, frames: seq<seq<Quadlet>>, n: nat): (r: seq<Quadlet>)
    requires n <= |frames| && Slot(DATA, l.quadlets, n) <= |area|
    requires forall i :: 0 <= i < n ==> |frames[i]| == l.channels
    ensures |r| == |area|
  {
    PutBlocks(area, DATA, l.quadlets, l.positions, l.channels, frames, n)
  }

  lemma PutPcmNothing(l: Layout, area: seq<Quadlet>, frames: seq<seq<Quadlet>>)
    requires DATA <= |area|
    ensures PutPcm(l, area, frames, 0) == area
  {
  }

  lemma PutPcmNext(l: Layout, area: seq<Quadlet>, frames: seq<seq<Quadlet>>, i: nat)
    requires i < |frames| && Slot(DATA, l.quadlets, i + 1) <= |area|
    requires forall j :: 0 <= j <= i ==> |frames[j]| == l.channels
    ensures Slot(DATA, l.quadlets, i) + l.quadlets <= |area|
    ensures PutPcm(l, area, frames, i + 1) ==
            PutBlock(PutPcm(l, area, frames, i), Slot(DATA, l.quadlets, i), l.positions, frames[i], l.channels)
  {
  }

  ghost function PutMidi(l: Layout, area: seq<Quadlet>, midi: seq<Quadlet>, n: nat): (r: seq<Quadlet>)
    requires l.midiPorts > 0 && n <= |midi| && Slot(DATA, l.quadlets, n) <= |area|
    ensures |r| == |area|
  {
    PutBlocks(area, DATA, l.quadlets, [l.midiPosition], 1, Singles(midi), n)
  }

  ghost function GetPcm(l: Layout, area: seq<Quadlet>, n: nat): (r: seq<seq<Quadlet>>)
    requires Slot(DATA, l.quadlets, n) <= |area|
    ensures |r| == n && forall i :: 0 <= i < n ==> |r[i]| == l.channels
  {
    GetBlocks(area, DATA, l.quadlets, l.positions, l.channels, n)
  }

  ghost function GetMidi(l: Layout, area: seq<Quadlet>, n: nat): (r: seq<seq<Quadlet>>)
    requires l.midiPorts > 0 && Slot(DATA, l.quadlets, n) <= |area|
  {
    GetBlocks(area, DATA, l.quadlets, [l.midiPosition], 1, n)
  }

  /** Everything a sender puts into the data area. */
  ghost function Fill(l: Layout, area: seq<Quadlet>, frames: seq<seq<Quadlet>>, midi: seq<Quadlet>,
                      n: nat): (r: seq<Quadlet>)
    requires n <= |frames| && n <= |midi| && Slot(DATA, l.quadlets, n) <= |area|
    requires forall i :: 0 <= i < n ==> |frames[i]| == l.channels
    ensures |r| == |area|
  {
    var pcm := PutPcm(l, area, frames, n);
    if l.midiPorts > 0 then PutMidi(l, pcm, midi, n) else pcm
  }

  lemma SlotsDisjoint(l: Layout, i: nat, c: nat, j: nat)
    requires l.midiPorts > 0 && c < l.channels
    ensures Slot(DATA, l.quadlets, i) + l.positions[c] != Slot(DATA, l.quadlets, j) + l.midiPosition
  {
    if i < j {
      SlotOrder(DATA, l.quadlets, i, j);
    } else if j < i {
      SlotOrder(DATA, l.quadlets, j, i);
    }
  }

  /** The receiver finds in the data area what the sender has put there: PCM
      and MIDI do not disturb each other, and the header is not touched. */
  lemma FillReads(l: Layout, area: seq<Quadlet>, frames: seq<seq<Quadlet>>, midi: seq<Quadlet>, n: nat)
    requires n == |frames| == |midi| && DATA <= |area| && Slot(DATA, l.quadlets, n) <= |area|
    requires forall i :: 0 <= i < n ==> |frames[i]| == l.channels
    ensures var sent := Fill(l, area, frames, midi, n);
            && GetPcm(l, sent, n) == frames
            && (l.midiPorts > 0 ==> GetMidi(l, sent, n) == Singles(midi))
            && sent[0] == area[0] && sent[1] == area[1]
  {
    var pcm := PutPcm(l, area, frames, n);
    GetPutAll(area, DATA, l.quadlets, l.positions, l.channels, frames, n);
    assert frames[..n] == frames;
    forall k | 0 <= k < DATA
      ensures pcm[k] == area[k]
    {
      HeaderKept(area, l.quadlets, l.positions, l.channels, frames, n, k);
    }
    if l.midiPorts > 0 {
      var blocks := Singles(midi);
      GetPutAll(pcm, DATA, l.quadlets, [l.midiPosition], 1, blocks, n);
      assert blocks[..n] == blocks;
      forall k | 0 <= k < DATA
        ensures PutMidi(l, pcm, midi, n)[k] == pcm[k]
      {
        HeaderKept(pcm, l.quadlets, [l.midiPosition], 1, blocks, n, k);
      }
      PcmUnderMidi(l, pcm, midi, n);
    }
  }

  lemma HeaderKept(area: seq<Quadlet>, quadlets: nat, positions: seq<nat>, channels: nat, blocks: seq<seq<Quadlet>>,
                   n: nat, k: nat)
    requires IsPlacement(positions, channels, quadlets)
    requires n <= |blocks| && forall i :: 0 <= i < n ==> |blocks[i]| == channels
    requires Slot(DATA, quadlets, n) <= |area| && k < DATA && k < |area|
    ensures PutBlocks(area, DATA, quadlets, positions, channels, blocks, n)[k] == area[k]
  {
    forall i, c | 0 <= i < n && 0 <= c < channels
      ensures k != Slot(DATA, quadlets, i) + positions[c]
    {
      if i > 0 {
        SlotOrder(DATA, quadlets, 0, i);
      }
    }
    PutBlocksKeeps(area, DATA, quadlets, positions, channels, blocks, n, k);
  }

  lemma PcmUnderMidi(l: Layout, area: seq<Quadlet>, midi: seq<Quadlet>, n: nat)
    requires l.midiPorts > 0 && n <= |midi| && Slot(DATA, l.quadlets, n) <= |area|
    ensures GetPcm(l, PutMidi(l, area, midi, n), n) == GetPcm(l, area, n)
  {
    var after := PutMidi(l, area, midi, n);
    forall i | 0 <= i < n
      ensures GetPcm(l, after, n)[i] == GetPcm(l, area, n)[i]
    {
      GetBlocksAt(after, DATA, l.quadlets, l.positions, l.channels, n, i);
      GetBlocksAt(area, DATA, l.quadlets, l.positions, l.channels, n, i);
      BlockUnderMidi(l, area, midi, n, i);
    }
  }

  lemma BlockUnderMidi(l: Layout, area: seq<Quadlet>, midi: seq<Quadlet>, n: nat, i: nat)
    requires l.midiPorts > 0 && n <= |midi| && Slot(DATA, l.quadlets, n) <= |area| && i < n
    ensures Slot(DATA, l.quadlets, i) + l.quadlets <= |area|
    ensures GetBlock(PutMidi(l, area, midi, n), Slot(DATA, l.quadlets, i), l.positions, l.channels) ==
            GetBlock(area, Slot(DATA, l.quadlets, i), l.positions, l.channels)
  {
    SlotOrder(DATA, l.quadlets, i, n);
    forall c | 0 <= c < l.channels
      ensures PutMidi(l, area, midi, n)[Slot(DATA, l.quadlets, i) + l.positions[c]] ==
              area[Slot(DATA, l.quadlets, i) + l.positions[c]]
    {
      SampleUnderMidi(l, area, midi, n, i, c);
    }
  }

  lemma SampleUnderMidi(l: Layout, area: seq<Quadlet>, midi: seq<Quadlet>, n: nat, i: nat, c: nat)
    requires l.midiPorts > 0 && n <= |midi| && Slot(DATA, l.quadlets, n) <= |area|
    requires i < n && c < l.channels
    ensures Slot(DATA, l.quadlets, i) + l.positions[c] < |area|
    ensures var k := Slot(DATA, l.quadlets, i) + l.positions[c];
            PutMidi(l, area, midi, n)[k] == area[k]
  {
    SlotOrder(DATA, l.quadlets, i, n);
    forall j, d | 0 <= j < n && 0 <= d < 1
      ensures Slot(DATA, l.quadlets, i) + l.positions[c] != Slot(DATA, l.quadlets, j) + [l.midiPosition][d]
    {
      SlotsDisjoint(l, i, c, j);
    }
    PutBlocksKeeps(area, DATA, l.quadlets, [l.midiPosition], 1, Singles(midi), n,
                   Slot(DATA, l.quadlets, i) + l.positions[c]);
  }
}
