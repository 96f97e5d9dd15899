/** Moving PCM frames between a ring buffer and the data blocks of a packet:
    the pointer walk that the transfer functions of amdtp.c and
    digi00x-protocol.c share, on sequences. */
module PcmBlocks {
  /** Where the ring pointer stands before block i: it starts at `start`, moves
      on by one frame per block, and goes back to 0 after `wrap` blocks. */
  function Source(start: nat, wrap: nat, channels: nat, i: nat): nat {
    if i == 0 then start
    else if i == wrap then 0
    else Source(start, wrap, channels, i - 1) + channels
  }

  ghost predicate Fits(length: nat, start: nat, wrap: nat, channels: nat, n: nat) {
    forall i {:trigger Source(start, wrap, channels, i)} :: 0 <= i < n ==>
        Source(start, wrap, channels, i) + channels <= length
  }

  /** One step of the walk. */
  lemma WalkStep(length: nat, start: nat, wrap: nat, channels: nat, n: nat, i: nat)
    requires Fits(length, start, wrap, channels, n) && i < n
    ensures Source(start, wrap, channels, i) + channels <= length
    ensures Source(start, wrap, channels, i + 1) ==
            if i + 1 == wrap then 0 else Source(start, wrap, channels, i) + channels
  {
  }

  /** The samples that block i takes from, or leaves in, the ring. */
  function Frame<T>(ring: seq<T>, start: nat, wrap: nat, channels: nat, i: nat): seq<T>
    requires Source(start, wrap, channels, i) + channels <= |ring|
  {
    ring[Source(start, wrap, channels, i)..Source(start, wrap, channels, i) + channels]
  }

  lemma NextProduct(i: nat, k: nat)
    ensures (i + 1) * k == i * k + k
  {
  }

  /** Where frame f starts in a ring: f * channels, by repeated addition. */
  function FrameStart(channels: nat, f: nat): nat {
    if f == 0 then 0 else FrameStart(channels, f - 1) + channels
  }

  lemma {:induction false} FrameStartIsProduct(channels: nat, f: nat)
    ensures FrameStart(channels, f) == f * channels
  {
    if f > 0 {
      FrameStartIsProduct(channels, f - 1);
      NextProduct(f - 1, channels);
    }
  }

  lemma {:induction false} FrameStartOrder(channels: nat, f: nat, g: nat)
    requires f < g
    ensures FrameStart(channels, f) + channels <= FrameStart(channels, g)
  {
    if f + 1 < g {
      FrameStartOrder(channels, f, g - 1);
    }
  }

  /** With `size` frames of `channels` samples and fewer than `size` frames to
      go, the walk from frame `pointer` visits frame (pointer + i) mod size. */
  function RingIndex(pointer: nat, size: nat, i: nat): nat {
    if pointer + i < size then pointer + i else pointer + i - size
  }

  lemma {:induction false} SourceIsRingFrame(pointer: nat, size: nat, channels: nat, i: nat)
    requires pointer < size && i < size
    ensures Source(FrameStart(channels, pointer), size - pointer, channels, i) ==
            FrameStart(channels, RingIndex(pointer, size, i))
    ensures Source(FrameStart(channels, pointer), size - pointer, channels, i) + channels <= FrameStart(channels, size)
  {
    if i > 0 {
      SourceIsRingFrame(pointer, size, channels, i - 1);
    }
    FrameStartOrder(channels, RingIndex(pointer, size, i), size);
  }

  lemma RingFits(pointer: nat, size: nat, channels: nat, n: nat)
    requires pointer < size && n <= size
    ensures Fits(FrameStart(channels, size), FrameStart(channels, pointer), size - pointer, channels, n)
  {
    forall i {:trigger Source(FrameStart(channels, pointer), size - pointer, channels, i)} | 0 <= i < n
      ensures Source(FrameStart(channels, pointer), size - pointer, channels, i) + channels <=
              FrameStart(channels, size)
    {
      SourceIsRingFrame(pointer, size, channels, i);
    }
  }

  // ---------------------------------------------------------------------
  // Ring side, two frames in a block
  // ---------------------------------------------------------------------

  /** While the count of blocks does not reach the frames left, the pointer moves
      on by two frames a block. */
  lemma {:induction false} DualSource(half: nat, pointer: nat, wrap: nat, i: nat)
    requires i < wrap
    ensures Source(FrameStart(half, pointer), wrap, 2 * half, i) == FrameStart(half, pointer + 2 * i)
  {
    if i > 0 {
      DualSource(half, pointer, wrap, i - 1);
      assert FrameStart(half, pointer + 2 * i) == FrameStart(half, pointer + 2 * i - 1) + half;
      assert FrameStart(half, pointer + 2 * i - 1) == FrameStart(half, pointer + 2 * (i - 1)) + half;
    }
  }

  lemma {:induction false} FrameStartMonotone(channels: nat, f: nat, g: nat)
    requires f <= g
    ensures FrameStart(channels, f) <= FrameStart(channels, g)
  {
    if f < g {
      FrameStartOrder(channels, f, g);
    }
  }

  lemma DualFits(half: nat, size: nat, pointer: nat, n: nat)
    requires pointer < size && pointer + 2 * n <= size
    ensures Fits(FrameStart(half, size), FrameStart(half, pointer), size - pointer, 2 * half, n)
  {
    forall i {:trigger Source(FrameStart(half, pointer), size - pointer, 2 * half, i)} | 0 <= i < n
      ensures Source(FrameStart(half, pointer), size - pointer, 2 * half, i) + 2 * half <= FrameStart(half, size)
    {
      DualBlockInside(half, size, pointer, i);
    }
  }

  lemma DualBlockInside(half: nat, size: nat, pointer: nat, i: nat)
    requires pointer + 2 * i + 2 <= size
    ensures Source(FrameStart(half, pointer), size - pointer, 2 * half, i) + 2 * half <= FrameStart(half, size)
  {
    DualSource(half, pointer, size - pointer, i);
    FrameStartMonotone(half, pointer + 2 * i + 2, size);
    TwoFrames(half, pointer + 2 * i);
  }

  lemma TwoFrames(half: nat, f: nat)
    ensures FrameStart(half, f + 2) == FrameStart(half, f + 1) + half == FrameStart(half, f) + 2 * half
  {
  }

  // ---------------------------------------------------------------------
  // Packet side: data blocks of `quadlets` quadlets from index `base`
  // ---------------------------------------------------------------------

  /** Where data block i starts. */
  function Slot(base: nat, quadlets: nat, i: nat): nat {
    if i == 0 then base else Slot(base, quadlets, i - 1) + quadlets
  }

  lemma {:induction false} SlotIsProduct(base: nat, quadlets: nat, i: nat)
    ensures Slot(base, quadlets, i) == base + i * quadlets
  {
    if i > 0 {
      SlotIsProduct(base, quadlets, i - 1);
      NextProduct(i - 1, quadlets);
    }
  }

  lemma {:induction false} SlotOrder(base: nat, quadlets: nat, i: nat, j: nat)
    requires i < j
    ensures Slot(base, quadlets, i) + quadlets <= Slot(base, quadlets, j)
  {
    if i + 1 < j {
      SlotOrder(base, quadlets, i, j - 1);
    }
  }

  lemma SlotStep(base: nat, quadlets: nat, i: nat, n: nat)
    requires i < n
    ensures Slot(base, quadlets, i) + quadlets == Slot(base, quadlets, i + 1) <= Slot(base, quadlets, n)
  {
    if i + 1 < n {
      SlotOrder(base, quadlets, i + 1, n);
    }
  }

  /** The first `channels` entries place the channels inside a data block. */
  ghost predicate IsPlacement(positions: seq<nat>, channels: nat, quadlets: nat) {
    && channels <= |positions|
    && (forall c :: 0 <= c < channels ==> positions[c] < quadlets)
    && (forall c, d :: 0 <= c < d < channels ==> positions[c] != positions[d])
  }

  /** The packet buffer with the first `channels` samples put into the block at b. */
  function PutBlock<T>(area: seq<T>, b: nat, positions: seq<nat>, samples: seq<T>, channels: nat): (r: seq<T>)
    requires channels <= |positions| && channels <= |samples|
    requires forall c :: 0 <= c < channels ==> b + positions[c] < |area|
    ensures |r| == |area|
  {
    if channels == 0 then area
    else PutBlock(area, b, positions, samples, channels - 1)[b + positions[channels - 1] := samples[channels - 1]]
  }

  /** The packet buffer with the first n blocks put in. */
  function PutBlocks<T>(area: seq<T>, base: nat, quadlets: nat, positions: seq<nat>, channels: nat,
                        blocks: seq<seq<T>>, n: nat): (r: seq<T>)
    requires IsPlacement(positions, channels, quadlets)
    requires n <= |blocks| && forall i :: 0 <= i < n ==> |blocks[i]| == channels
    requires Slot(base, quadlets, n) <= |area|
    ensures |r| == |area|
  {
    if n == 0 then area else
      SlotOrder(base, quadlets, n - 1, n);
      PutBlock(PutBlocks(area, base, quadlets, positions, channels, blocks, n - 1),
               Slot(base, quadlets, n - 1), positions, blocks[n - 1], channels)
  }

  /** What channel c of the block at b holds, for all channels. */
  function GetBlock<T>(area: seq<T>, b: nat, positions: seq<nat>, channels: nat): (r: seq<T>)
    requires channels <= |positions|
    requires forall c :: 0 <= c < channels ==> b + positions[c] < |area|
    ensures |r| == channels
    ensures forall c :: 0 <= c < channels ==> r[c] == area[b + positions[c]]
  {
    seq(channels, c requires 0 <= c < channels => area[b + positions[c]])
  }

  lemma {:induction false} PutBlockAt<T>(area: seq<T>, b: nat, positions: seq<nat>, samples: seq<T>, channels: nat,
                                         quadlets: nat, k: nat)
    requires IsPlacement(positions, channels, quadlets) && |samples| >= channels && b + quadlets <= |area| && k < |area|
    ensures forall c :: 0 <= c < channels && k == b + positions[c] ==>
            PutBlock(area, b, positions, samples, channels)[k] == samples[c]
    ensures (forall c :: 0 <= c < channels ==> k != b + positions[c]) ==>
            PutBlock(area, b, positions, samples, channels)[k] == area[k]
  {
    if channels > 0 {
      PutBlockAt(area, b, positions, samples, channels - 1, quadlets, k);
    }
  }

  /** Everything outside the channel positions of the first n blocks is kept. */
  lemma {:induction false} PutBlocksKeeps<T>(area: seq<T>, base: nat, quadlets: nat, positions: seq<nat>,
                                             channels: nat, blocks: seq<seq<T>>, n: nat, k: nat)
    requires IsPlacement(positions, channels, quadlets)
    requires n <= |blocks| && forall i :: 0 <= i < n ==> |blocks[i]| == channels
    requires Slot(base, quadlets, n) <= |area| && k < |area|
    requires forall i, c :: 0 <= i < n && 0 <= c < channels ==> k != Slot(base, quadlets, i) + positions[c]
    ensures PutBlocks(area, base, quadlets, positions, channels, blocks, n)[k] == area[k]
  {
    if n > 0 {
      SlotOrder(base, quadlets, n - 1, n);
      PutBlocksKeeps(area, base, quadlets, positions, channels, blocks, n - 1, k);
      PutBlockAt(PutBlocks(area, base, quadlets, positions, channels, blocks, n - 1),
                 Slot(base, quadlets, n - 1), positions, blocks[n - 1], channels, quadlets, k);
    }
  }

  /** What is put into the block at b is what is found there; blocks before
      it are not touched. */
  lemma GetPutBlock<T>(area: seq<T>, b: nat, positions: seq<nat>, samples: seq<T>, channels: nat, quadlets: nat,
                       b': nat)
    requires IsPlacement(positions, channels, quadlets) && |samples| == channels && b + quadlets <= |area|
    requires b' == b || b' + quadlets <= b
    ensures GetBlock(PutBlock(area, b, positions, samples, channels), b', positions, channels) ==
            if b' == b then samples else GetBlock(area, b', positions, channels)
  {
    forall c | 0 <= c < channels
      ensures PutBlock(area, b, positions, samples, channels)[b' + positions[c]] ==
              if b' == b then samples[c] else area[b' + positions[c]]
    {
      PutBlockAt(area, b, positions, samples, channels, quadlets, b' + positions[c]);
    }
  }

  /** What was put into block i is what is found there. */
  lemma {:induction false} GetPut<T>(area: seq<T>, base: nat, quadlets: nat, positions: seq<nat>, channels: nat,
                                     blocks: seq<seq<T>>, n: nat, i: nat)
    requires IsPlacement(positions, channels, quadlets)
    requires i < n <= |blocks| && forall i :: 0 <= i < n ==> |blocks[i]| == channels
    requires Slot(base, quadlets, n) <= |area|
    ensures Slot(base, quadlets, i) + quadlets <= |area|
    ensures GetBlock(PutBlocks(area, base, quadlets, positions, channels, blocks, n), Slot(base, quadlets, i),
                     positions, channels) == blocks[i]
  {
    SlotOrder(base, quadlets, n - 1, n);
    SlotOrder(base, quadlets, i, n);
    if i < n - 1 {
      SlotOrder(base, quadlets, i, n - 1);
      GetPut(area, base, quadlets, positions, channels, blocks, n - 1, i);
    }
    GetPutBlock(PutBlocks(area, base, quadlets, positions, channels, blocks, n - 1), Slot(base, quadlets, n - 1),
                positions, blocks[n - 1], channels, quadlets, Slot(base, quadlets, i));
  }

  lemma {:induction false} PutBlocksPrefix<T>(area: seq<T>, base: nat, quadlets: nat, positions: seq<nat>,
                                              channels: nat, a: seq<seq<T>>, b: seq<seq<T>>, n: nat)
    requires IsPlacement(positions, channels, quadlets) && Slot(base, quadlets, n) <= |area|
    requires n <= |a| && n <= |b| && a[..n] == b[..n] && forall i :: 0 <= i < n ==> |a[i]| == channels
    ensures forall i :: 0 <= i < n ==> |b[i]| == channels
    ensures PutBlocks(area, base, quadlets, positions, channels, a, n) ==
            PutBlocks(area, base, quadlets, positions, channels, b, n)
  {
    assert forall i :: 0 <= i < n ==> a[i] == a[..n][i] == b[i];
    if n > 0 {
      assert a[..n - 1] == a[..n][..n - 1] == b[..n - 1];
      SlotOrder(base, quadlets, n - 1, n);
      PutBlocksPrefix(area, base, quadlets, positions, channels, a, b, n - 1);
    }
  }

  /** All blocks as a receiver finds them. */
  function GetBlocks<T>(area: seq<T>, base: nat, quadlets: nat, positions: seq<nat>, channels: nat,
                        n: nat): (r: seq<seq<T>>)
    requires IsPlacement(positions, channels, quadlets) && Slot(base, quadlets, n) <= |area|
    ensures |r| == n && forall i :: 0 <= i < n ==> |r[i]| == channels
  {
    if n == 0 then [] else
      SlotOrder(base, quadlets, n - 1, n);
      GetBlocks(area, base, quadlets, positions, channels, n - 1)
      + [GetBlock(area, Slot(base, quadlets, n - 1), positions, channels)]
  }

  lemma {:induction false} GetBlocksAt<T>(area: seq<T>, base: nat, quadlets: nat, positions: seq<nat>, channels: nat,
                                          n: nat, i: nat)
    requires IsPlacement(positions, channels, quadlets) && Slot(base, quadlets, n) <= |area| && i < n
    ensures Slot(base, quadlets, i) + quadlets <= |area|
    ensures GetBlocks(area, base, quadlets, positions, channels, n)[i] ==
            GetBlock(area, Slot(base, quadlets, i), positions, channels)
  {
    SlotOrder(base, quadlets, i, n);
    SlotOrder(base, quadlets, n - 1, n);
    if i < n - 1 {
      GetBlocksAt(area, base, quadlets, positions, channels, n - 1, i);
    }
  }

  /** Blocks are found alike in the part of the area that holds them. */
  lemma {:induction false} GetBlocksPrefix<T>(area: seq<T>, base: nat, quadlets: nat, positions: seq<nat>,
                                              channels: nat, n: nat, m: nat)
    requires IsPlacement(positions, channels, quadlets) && Slot(base, quadlets, n) <= m <= |area|
    ensures GetBlocks(area[..m], base, quadlets, positions, channels, n) ==
            GetBlocks(area, base, quadlets, positions, channels, n)
  {
    if n > 0 {
      SlotOrder(base, quadlets, n - 1, n);
      GetBlocksPrefix(area, base, quadlets, positions, channels, n - 1, m);
      var b := Slot(base, quadlets, n - 1);
      assert GetBlock(area[..m], b, positions, channels) == GetBlock(area, b, positions, channels);
    }
  }

  lemma GetPutAll<T>(area: seq<T>, base: nat, quadlets: nat, positions: seq<nat>, channels: nat, blocks: seq<seq<T>>,
                     n: nat)
    requires IsPlacement(positions, channels, quadlets)
    requires n <= |blocks| && forall i :: 0 <= i < n ==> |blocks[i]| == channels
    requires Slot(base, quadlets, n) <= |area|
    ensures GetBlocks(PutBlocks(area, base, quadlets, positions, channels, blocks, n), base, quadlets, positions,
                      channels, n) == blocks[..n]
  {
    var area' := PutBlocks(area, base, quadlets, positions, channels, blocks, n);
    forall i | 0 <= i < n
      ensures GetBlocks(area', base, quadlets, positions, channels, n)[i] == blocks[i]
    {
      GetBlocksAt(area', base, quadlets, positions, channels, n, i);
      GetPut(area, base, quadlets, positions, channels, blocks, n, i);
    }
  }
}
