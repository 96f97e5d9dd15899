/** The "double-oh-three" encoding of the Digi 00x driver
    (sound/firewire/digi00x/digi00x-protocol.c): a stateful table-driven
    scrambling of the middle byte of every PCM sample. */
module Digi00xCodec {
  type Byte = bv8

  const LEN: seq<nat> := [0, 1, 3, 5, 7, 9, 11, 13, 14, 12, 10, 8, 6, 4, 2, 0]
  const NIB: seq<Byte> := [0x8, 0x7, 0x9, 0x6, 0xa, 0x5, 0xb, 0x4, 0xc, 0x3, 0xd, 0x2, 0xe, 0x1, 0xf]
  const HIR: seq<Byte> := [0x0, 0x6, 0xf, 0x8, 0x7, 0x5, 0x3, 0x4, 0xc, 0xd, 0xe, 0x1, 0x2, 0xb, 0xa]
  const HIO: seq<nat> := [0, 11, 12, 6, 7, 5, 1, 4, 3, 0, 14, 13, 8, 9, 10, 2]

  /** An unsigned 32-bit counter. */
  type Offset = n: nat | n < 0x1_0000_0000

  function NextOffset(off: Offset): Offset {
    if off + 1 < 0x1_0000_0000 then off + 1 else 0
  }

  /** Unsigned 32-bit addition of a small number. */
  function Plus(off: Offset, k: nat): Offset
    requires k < 16
  {
    if off + k < 0x1_0000_0000 then off + k else off + k - 0x1_0000_0000
  }

  function LowNibble(b: Byte): (n: nat)
    ensures n < 16
  {
    (b & 0x0f) as nat
  }

  function HighNibble(b: Byte): (n: nat)
    ensures n < 16
  {
    ((b >> 4) & 0x0f) as nat
  }

  /** dot_scrt. Every table index is in bounds for every idx and off. */
  function Salt(idx: Byte, off: Offset): Byte {
    var len := LEN[LowNibble(idx)];
    if len < off then 0x00 else NIB[14 + off - len] | (HighSalt(idx, off) << 4)
  }

  function HighSalt(idx: Byte, off: Offset): Byte {
    var hn := HighNibble(idx);
    if hn == 9 then 0x9 else HIR[Plus(off, HIO[hn]) % 15]
  }

  /** How far the pattern of idx reaches. */
  function Reach(idx: Byte): nat { LEN[LowNibble(idx)] }

  /** The salt is non-zero exactly while the pattern of idx lasts. */
  lemma SaltNonZero(idx: Byte, off: Offset)
    ensures Salt(idx, off) != 0 <==> off <= Reach(idx)
    ensures Reach(idx) <= 14
  {
    if off <= Reach(idx) {
      assert NIB[14 + off - Reach(idx)] != 0;
      OrNonZero(NIB[14 + off - Reach(idx)], HighSalt(idx, off) << 4);
    }
  }

  lemma OrNonZero(a: Byte, b: Byte)
    requires a != 0
    ensures a | b != 0
  {
  }

  // ---------------------------------------------------------------------
  // Encoding and decoding
  // ---------------------------------------------------------------------

  datatype DotState = DotState(carry: Byte, idx: Byte, off: Offset)

  /** snd_dg00x_protocol_init_state. */
  const INITIAL := DotState(0x00, 0x00, 0)

  /** A quadlet as its four bytes in bus order; the code works on data[2]. */
  datatype Quadlet = Quadlet(b0: Byte, b1: Byte, b2: Byte, b3: Byte)

  /** cpu_to_be32((x >> 8) | 0x40000000). */
  function FromSample(x: bv32): Quadlet {
    Quadlet(0x40, ((x >> 24) & 0xff) as Byte, ((x >> 16) & 0xff) as Byte, ((x >> 8) & 0xff) as Byte)
  }

  /** The sample that a quadlet carries, its low 8 bits lost. */
  function ToSample(q: Quadlet): bv32 {
    ((q.b1 as bv32) << 24) | ((q.b2 as bv32) << 16) | ((q.b3 as bv32) << 8)
  }

  lemma SampleRoundTrip(x: bv32)
    ensures ToSample(FromSample(x)) == x & 0xffffff00
  {
  }

  /** What dot_scrt is used for. The laws of encoding and decoding hold for
      every such function; the driver's is Salt. */
  type SaltFunction = (Byte, Offset) -> Byte

  /** The state after a sample whose middle byte is `data` before encoding. */
  function Advance(salt: SaltFunction, s: DotState, data: Byte): DotState {
    var idx := if data != 0x00 then data ^ s.carry else s.idx;
    var off := NextOffset(if data != 0x00 then 0 else s.off);
    DotState(salt(idx, off), idx, off)
  }

  function Scramble(s: DotState, v: Quadlet): Quadlet {
    v.(b2 := v.b2 ^ s.carry)
  }

  lemma ScrambleTwice(s: DotState, v: Quadlet)
    ensures Scramble(s, Scramble(s, v)) == v
  {
    assert (v.b2 ^ s.carry) ^ s.carry == v.b2;
  }

  /** Encoding of the first n quadlets: output byte, then advance by the input. */
  function Encode(salt: SaltFunction, s: DotState, samples: seq<Quadlet>, n: nat): (r: (DotState, seq<Quadlet>))
    requires n <= |samples|
    ensures |r.1| == n
  {
    if n == 0 then (s, []) else
      var (t, out) := Encode(salt, s, samples, n - 1);
      (Advance(salt, t, samples[n - 1].b2), out + [Scramble(t, samples[n - 1])])
  }

  /** The receiving side: undo the xor, then advance by the recovered byte. */
  function Decode(salt: SaltFunction, s: DotState, encoded: seq<Quadlet>, n: nat): (r: (DotState, seq<Quadlet>))
    requires n <= |encoded|
    ensures |r.1| == n
  {
    if n == 0 then (s, []) else
      var (t, out) := Decode(salt, s, encoded, n - 1);
      var v := Scramble(t, encoded[n - 1]);
      (Advance(salt, t, v.b2), out + [v])
  }

  lemma {:induction false} EncodePrefix(salt: SaltFunction, s: DotState, a: seq<Quadlet>, b: seq<Quadlet>, n: nat)
    requires n <= |a| && n <= |b| && a[..n] == b[..n]
    ensures Encode(salt, s, a, n) == Encode(salt, s, b, n)
  {
    if n > 0 {
      assert a[..n - 1] == a[..n][..n - 1] == b[..n - 1];
      EncodePrefix(salt, s, a, b, n - 1);
      assert a[..n][n - 1] == b[..n][n - 1];
    }
  }

  lemma {:induction false} DecodePrefix(salt: SaltFunction, s: DotState, samples: seq<Quadlet>, encoded: seq<Quadlet>,
                                        n: nat)
    requires n <= |samples| && n <= |encoded| && encoded[..n] == Encode(salt, s, samples, n).1
    ensures Decode(salt, s, encoded, n) == (Encode(salt, s, samples, n).0, samples[..n])
  {
    if n > 0 {
      var (t, out) := Encode(salt, s, samples, n - 1);
      assert encoded[..n - 1] == encoded[..n][..n - 1] == out;
      DecodePrefix(salt, s, samples, encoded, n - 1);
      assert encoded[n - 1] == encoded[..n][n - 1];
      ScrambleTwice(t, samples[n - 1]);
      assert samples[..n - 1] + [samples[n - 1]] == samples[..n];
    }
  }

  /** Nothing is lost: a decoder that starts in the encoder's state recovers
      every sample of a stream of any length, and ends in the encoder's state. */
  lemma DecodeEncode(salt: SaltFunction, s: DotState, samples: seq<Quadlet>)
    ensures var (t, encoded) := Encode(salt, s, samples, |samples|);
            Decode(salt, s, encoded, |samples|) == (t, samples)
  {
    var encoded := Encode(salt, s, samples, |samples|).1;
    assert encoded[..|samples|] == encoded && samples[..|samples|] == samples;
    DecodePrefix(salt, s, samples, encoded, |samples|);
  }

  /** Encoding goes on across any split of the stream into frames or packets. */
  lemma {:induction false} EncodeConcat(salt: SaltFunction, s: DotState, a: seq<Quadlet>, b: seq<Quadlet>, n: nat)
    requires n <= |b|
    ensures var (t, x) := Encode(salt, s, a, |a|);
            Encode(salt, s, a + b, |a| + n) == (Encode(salt, t, b, n).0, x + Encode(salt, t, b, n).1)
  {
    var (t, x) := Encode(salt, s, a, |a|);
    if n == 0 {
      EncodePrefix(salt, s, a + b, a, |a|);
      assert x + [] == x;
    } else {
      EncodeConcat(salt, s, a, b, n - 1);
      var (u, y) := Encode(salt, t, b, n - 1);
      assert (a + b)[|a| + n - 1] == b[n - 1];
      assert (x + y) + [Scramble(u, b[n - 1])] == x + (y + [Scramble(u, b[n - 1])]);
    }
  }

  lemma {:induction false} EncodeKeeps(salt: SaltFunction, s: DotState, samples: seq<Quadlet>, n: nat, k: nat)
    requires k < n <= |samples|
    ensures Encode(salt, s, samples, n).1[k] == Scramble(Encode(salt, s, samples, k).0, samples[k])
  {
    if k + 1 < n {
      EncodeKeeps(salt, s, samples, n - 1, k);
    }
  }

  // ---------------------------------------------------------------------
  // The tail behind a non-zero byte
  // ---------------------------------------------------------------------

  /** Zero middle bytes from position 1 up to k, behind a non-zero one. */
  ghost predicate IsZeroRun(samples: seq<Quadlet>, k: nat) {
    |samples| > k && samples[0].b2 != 0 && forall j :: 1 <= j <= k ==> samples[j].b2 == 0
  }

  /** k wrapped to 32 bits. */
  function Wrapped(k: nat): Offset { k % 0x1_0000_0000 }

  lemma NextWrapped(k: nat)
    ensures NextOffset(Wrapped(k)) == Wrapped(k + 1)
  {
  }

  /** Index and offset follow the run. */
  lemma {:induction false} ZeroRunState(salt: SaltFunction, s: DotState, samples: seq<Quadlet>, k: nat)
    requires IsZeroRun(samples, k)
    ensures var idx, off := samples[0].b2 ^ s.carry, Wrapped(k + 1);
            Encode(salt, s, samples, k + 1).0 == DotState(salt(idx, off), idx, off)
  {
    if k == 0 {
      assert Encode(salt, s, samples, 0).0 == s;
    } else {
      ZeroRunState(salt, s, samples, k - 1);
      NextWrapped(k);
    }
  }

  lemma ZeroRunOutput(salt: SaltFunction, s: DotState, samples: seq<Quadlet>, k: nat)
    requires k > 0 && IsZeroRun(samples, k)
    ensures Encode(salt, s, samples, |samples|).1[k].b2 == salt(samples[0].b2 ^ s.carry, Wrapped(k))
  {
    ZeroRunState(salt, s, samples, k - 1);
    var t := Encode(salt, s, samples, k).0;
    EncodeKeeps(salt, s, samples, |samples|, k);
    ScrambleZero(t, samples[k]);
  }

  lemma ScrambleZero(s: DotState, v: Quadlet)
    requires v.b2 == 0
    ensures Scramble(s, v).b2 == s.carry
  {
    XorZero(s.carry);
  }

  lemma XorZero(b: Byte)
    ensures 0 ^ b == b
  {
  }

  /** Behind a non-zero byte, zero bytes are disturbed in exactly the first
      len[idx & 0xf] places, at most 14, and then sent as zeros; the same
      happens again each time the 32-bit offset has wrapped around. */
  lemma Tail(s: DotState, samples: seq<Quadlet>, k: nat)
    requires k > 0 && IsZeroRun(samples, k)
    ensures var reach := Reach(samples[0].b2 ^ s.carry);
            && reach <= 14
            && (Encode(Salt, s, samples, |samples|).1[k].b2 != 0 <==> k % 0x1_0000_0000 <= reach)
  {
    ZeroRunOutput(Salt, s, samples, k);
    SaltNonZero(samples[0].b2 ^ s.carry, Wrapped(k));
  }

  // ---------------------------------------------------------------------
  // The salt in closed form
  // ---------------------------------------------------------------------

  /** The ring of high nibbles, which leaves out 9. */
  function Successor(nibble: Byte): Byte {
    match nibble
    case 0x0 => 0x6
    case 0x6 => 0xf
    case 0xf => 0x8
    case 0x8 => 0x7
    case 0x7 => 0x5
    case 0x5 => 0x3
    case 0x3 => 0x4
    case 0x4 => 0xc
    case 0xc => 0xd
    case 0xd => 0xe
    case 0xe => 0x1
    case 0x1 => 0x2
    case 0x2 => 0xb
    case 0xb => 0xa
    case 0xa => 0x0
    case _ => nibble
  }

  /** A nibble moved on by k places. */
  function Turned(nibble: Byte, k: nat): Byte {
    if k == 0 then nibble else Successor(Turned(nibble, k - 1))
  }

  /** At offset 0 the high part of the salt is the index's own. */
  lemma HighStart(idx: Byte)
    ensures HighSalt(idx, 0) == (idx >> 4) & 0x0f
  {
    var hn := HighNibble(idx);
    assert hn != 9 ==> HighSalt(idx, 0) == HIR[HIO[hn] % 15];
    NibbleIs((idx >> 4) & 0x0f, hn);
  }

  lemma NibbleIs(nibble: Byte, n: nat)
    requires nibble as nat == n < 16
    ensures nibble == if n == 9 then 0x9 else HIR[HIO[n] % 15]
  {
  }

  /** One more place on the ring for each step of the offset; 9 stays. */
  lemma HighStep(idx: Byte, off: Offset)
    requires off + 16 < 0x1_0000_0000
    ensures HighSalt(idx, off + 1) == Successor(HighSalt(idx, off))
  {
    var hn := HighNibble(idx);
    if hn != 9 {
      NextPlace(off + HIO[hn]);
    }
  }

  lemma NextPlace(n: nat)
    ensures HIR[(n + 1) % 15] == Successor(HIR[n % 15])
  {
    assert (n + 1) % 15 == if n % 15 == 14 then 0 else n % 15 + 1;
    hide Successor;
    RingPlace(n % 15);
  }

  lemma RingPlace(m: nat)
    requires m < 15
    ensures HIR[if m == 14 then 0 else m + 1] == Successor(HIR[m])
  {
    if m < 5 {
    } else if m < 10 {
    }
  }

  lemma {:induction false} HighTurns(idx: Byte, off: Offset)
    requires off + 16 < 0x1_0000_0000
    ensures HighSalt(idx, off) == Turned((idx >> 4) & 0x0f, off)
  {
    hide HighSalt, Successor;
    if off == 0 {
      HighStart(idx);
    } else {
      HighTurns(idx, off - 1);
      HighStep(idx, off - 1);
    }
  }

  /** The low nibble d places before the end of the pattern: f, 1, e, 2, d, 3, ... */
  function LowAt(d: nat): int { if d % 2 == 0 then 15 - d / 2 else (d + 1) / 2 }

  /** The length of the pattern, up and down with the low nibble. */
  function ReachOf(low: nat): int {
    if low == 0 then 0 else if low < 8 then 2 * low - 1 else 30 - 2 * low
  }

  lemma LowSalt(idx: Byte, off: Offset)
    ensures Reach(idx) == ReachOf((idx & 0x0f) as nat) <= 14
    ensures off <= Reach(idx) ==> NIB[14 + off - Reach(idx)] as nat == LowAt(Reach(idx) - off)
  {
    NibbleTable();
  }

  lemma NibbleTable()
    ensures forall d :: 0 <= d <= 14 ==> NIB[14 - d] as nat == LowAt(d)
  {
  }

  lemma JoinNibbles(high: Byte, low: Byte)
    requires low < 0x10 && high < 0x10
    ensures (low | (high << 4)) & 0x0f == low && (low | (high << 4)) >> 4 == high
  {
  }

  lemma HighIsNibble(idx: Byte, off: Offset)
    ensures HighSalt(idx, off) < 0x10
  {
  }

  lemma SmallByte(b: Byte)
    ensures b as nat < 16 <==> b < 0x10
  {
  }

  /** The whole salt by these: nothing beyond the reach; up to it the high nibble of the
      index, turned by the offset, over the alternating low nibble. */
  predicate IsSalt(salt: Byte, idx: Byte, off: nat) {
    var reach := ReachOf((idx & 0x0f) as nat);
    && 0 <= reach <= 14
    && (off > reach ==> salt == 0)
    && (off <= reach ==>
          (salt & 0x0f) as nat == LowAt(reach - off) && salt >> 4 == Turned((idx >> 4) & 0x0f, off))
  }

  lemma SaltIs(idx: Byte, off: Offset)
    ensures IsSalt(Salt(idx, off), idx, off)
  {
    hide HighSalt, Turned;
    LowSalt(idx, off);
    if off <= Reach(idx) {
      var low := NIB[14 + off - Reach(idx)];
      SmallByte(low);
      HighIsNibble(idx, off);
      JoinNibbles(HighSalt(idx, off), low);
      HighTurns(idx, off);
    }
  }

  /** The k'th zero byte behind a non-zero one is sent as that salt. */
  lemma TailIs(s: DotState, samples: seq<Quadlet>, k: nat)
    requires k > 0 && IsZeroRun(samples, k)
    ensures IsSalt(Encode(Salt, s, samples, |samples|).1[k].b2, samples[0].b2 ^ s.carry, k % 0x1_0000_0000)
  {
    hide IsSalt;
    ZeroRunOutput(Salt, s, samples, k);
    SaltIs(samples[0].b2 ^ s.carry, Wrapped(k));
  }

  /** From the state that prepare sets, silence and the first byte behind it go out as
      they are: there is nothing to disturb them with before the offset wraps. */
  lemma {:induction false} SilentStart(samples: seq<Quadlet>, k: nat)
    requires k < |samples| && k < 0xffff_ffff && forall j :: 0 <= j < k ==> samples[j].b2 == 0
    ensures Encode(Salt, INITIAL, samples, k).0 == DotState(0x00, 0x00, k)
    ensures Encode(Salt, INITIAL, samples, |samples|).1[k] == samples[k]
  {
    EncodeKeeps(Salt, INITIAL, samples, |samples|, k);
    if k > 0 {
      SilentStart(samples, k - 1);
    }
    Unscrambled(samples[k]);
  }

  lemma Unscrambled(v: Quadlet)
    ensures forall s: DotState :: s.carry == 0x00 ==> Scramble(s, v) == v
  {
    XorZero(v.b2);
    assert v.b2 ^ 0x00 == v.b2;
  }

  /** Middle bytes 11 and 00 are sent as 11 and 2f. */
  lemma FirstTail(samples: seq<Quadlet>)
    requires |samples| == 2 && samples[0].b2 == 0x11 && samples[1].b2 == 0x00
    ensures Encode(Salt, INITIAL, samples, 2).1[0].b2 == 0x11
    ensures Encode(Salt, INITIAL, samples, 2).1[1].b2 == 0x2f
  {
    hide Encode, IsSalt;
    SilentStart(samples, 0);
    TailIs(INITIAL, samples, 1);
    assert samples[0].b2 ^ INITIAL.carry == 0x11;
    SaltOf11(Encode(Salt, INITIAL, samples, 2).1[1].b2);
  }

  lemma SaltOf11(b: Byte)
    requires IsSalt(b, 0x11, 1)
    ensures b == 0x2f
  {
    assert ((0x11 as Byte) >> 4) & 0x0f == 0x1 && (0x11 as Byte) & 0x0f == 0x1;
    assert Turned(0x1, 1) == Successor(Turned(0x1, 0)) == 0x2;
    assert (b & 0x0f) as nat == 15 && b >> 4 == 0x2;
    assert b & 0x0f == 0x0f;
  }

  /** The label 40 over the upper 24 bits of the sample, in bus order. */
  lemma SampleLabelled(x: bv32)
    ensures FromSample(x).b0 == 0x40
    ensures FromSample(x).b1 as bv32 == x >> 24
    ensures FromSample(x).b2 as bv32 == (x >> 16) & 0xff
    ensures FromSample(x).b3 as bv32 == (x >> 8) & 0xff
  {
  }
}

/** write_pcm_s32 of the Digi 00x driver, in place on the packet buffer. */
module Digi00xProtocol {
  import opened PcmBlocks
  import opened Digi00xCodec

  /** The PCM samples of one frame as quadlets. */
  function FromFrame(frame: seq<bv32>): (r: seq<Quadlet>)
    ensures |r| == |frame| && forall c :: 0 <= c < |frame| ==> r[c] == FromSample(frame[c])
  {
    seq(|frame|, c requires 0 <= c < |frame| => FromSample(frame[c]))
  }

  /** The quadlets for n data blocks, not yet encoded. */
  function Plain(dma: seq<bv32>, start: nat, wrap: nat, channels: nat, n: nat): (r: seq<seq<Quadlet>>)
    requires Fits(|dma|, start, wrap, channels, n)
    ensures |r| == n && forall i :: 0 <= i < n ==> |r[i]| == channels
  {
    if n == 0 then [] else
      Plain(dma, start, wrap, channels, n - 1) + [FromFrame(Frame(dma, start, wrap, channels, n - 1))]
  }

  /** ... and encoded, block after block. */
  function EncodeBlocks(salt: SaltFunction, s: DotState, blocks: seq<seq<Quadlet>>,
                        n: nat): (r: (DotState, seq<seq<Quadlet>>))
    requires n <= |blocks|
    ensures |r.1| == n && forall i :: 0 <= i < n ==> |r.1[i]| == |blocks[i]|
  {
    if n == 0 then (s, []) else
      var (t, out) := EncodeBlocks(salt, s, blocks, n - 1);
      var (t', e) := Encode(salt, t, blocks[n - 1], |blocks[n - 1]|);
      (t', out + [e])
  }

  function Flatten<T>(blocks: seq<seq<T>>, n: nat): seq<T>
    requires n <= |blocks|
  {
    if n == 0 then [] else Flatten(blocks, n - 1) + blocks[n - 1]
  }

  lemma {:induction false} FlattenPrefix<T>(a: seq<seq<T>>, b: seq<seq<T>>, n: nat)
    requires n <= |a| && n <= |b| && a[..n] == b[..n]
    ensures Flatten(a, n) == Flatten(b, n)
  {
    if n > 0 {
      assert a[..n - 1] == a[..n][..n - 1] == b[..n - 1];
      FlattenPrefix(a, b, n - 1);
      assert a[..n][n - 1] == b[..n][n - 1];
    }
  }

  /** The frame and channel loops encode one stream: the samples in playing order. */
  lemma {:induction false} BlocksAreStream(salt: SaltFunction, s: DotState, blocks: seq<seq<Quadlet>>, n: nat)
    requires n <= |blocks|
    ensures var (t, e) := EncodeBlocks(salt, s, blocks, n); var stream := Flatten(blocks, n);
            Encode(salt, s, stream, |stream|) == (t, Flatten(e, n))
  {
    hide Advance;
    if n > 0 {
      BlocksAreStream(salt, s, blocks, n - 1);
      var head, block := Flatten(blocks, n - 1), blocks[n - 1];
      EncodeConcat(salt, s, head, block, |block|);
      var e := EncodeBlocks(salt, s, blocks, n).1;
      var e' := EncodeBlocks(salt, s, blocks, n - 1).1;
      assert e[..n - 1] == e' == e'[..n - 1];
      FlattenPrefix(e, e', n - 1);
    }
  }

  /** End to end: from the packet buffer that a transfer leaves behind, a
      decoder in the state before it gets back every sample that was taken from
      the ring, and ends in the state after it, ready for the next packet. */
  lemma PacketDecodes(salt: SaltFunction, s: DotState, plain: seq<seq<Quadlet>>, n: nat,
                      area: seq<Quadlet>, base: nat, quadlets: nat, positions: seq<nat>, channels: nat)
    requires IsPlacement(positions, channels, quadlets) && Slot(base, quadlets, n) <= |area|
    requires n <= |plain| && forall i :: 0 <= i < n ==> |plain[i]| == channels
    ensures var (t, e) := EncodeBlocks(salt, s, plain, n);
            var sent := PutBlocks(area, base, quadlets, positions, channels, e, n);
            var stream := Flatten(GetBlocks(sent, base, quadlets, positions, channels, n), n);
            Decode(salt, s, stream, |stream|) == (t, Flatten(plain, n))
  {
    var (t, e) := EncodeBlocks(salt, s, plain, n);
    GetPutAll(area, base, quadlets, positions, channels, e, n);
    assert e[..n] == e;
    BlocksAreStream(salt, s, plain, n);
    DecodeEncode(salt, s, Flatten(plain, n));
  }

  /** A packet of a stream: the packet buffer before it is filled, and the quadlets
      that go into its data blocks. */
  datatype Packet = Packet(area: seq<Quadlet>, plain: seq<seq<Quadlet>>)

  ghost predicate ArePackets(packets: seq<Packet>, base: nat, quadlets: nat, channels: nat) {
    forall k :: 0 <= k < |packets| ==>
      && Slot(base, quadlets, |packets[k].plain|) <= |packets[k].area|
      && forall i :: 0 <= i < |packets[k].plain| ==> |packets[k].plain[i]| == channels
  }

  /** The scrambler's state after the first n packets. */
  function StateAfter(salt: SaltFunction, packets: seq<Packet>, n: nat): DotState
    requires n <= |packets|
  {
    if n == 0 then INITIAL
    else EncodeBlocks(salt, StateAfter(salt, packets, n - 1), packets[n - 1].plain, |packets[n - 1].plain|).0
  }

  /** What a receiver takes from the blocks of packet k, as write_pcm_s32 leaves it. */
  ghost function OnTheBus(salt: SaltFunction, packets: seq<Packet>, k: nat, base: nat, quadlets: nat,
                          positions: seq<nat>, channels: nat): seq<Quadlet>
    requires k < |packets| && IsPlacement(positions, channels, quadlets)
    requires ArePackets(packets, base, quadlets, channels)
  {
    var n := |packets[k].plain|;
    var e := EncodeBlocks(salt, StateAfter(salt, packets, k), packets[k].plain, n).1;
    var sent := PutBlocks(packets[k].area, base, quadlets, positions, channels, e, n);
    Flatten(GetBlocks(sent, base, quadlets, positions, channels, n), n)
  }

  ghost function AllOnTheBus(salt: SaltFunction, packets: seq<Packet>, n: nat, base: nat, quadlets: nat,
                             positions: seq<nat>, channels: nat): seq<Quadlet>
    requires n <= |packets| && IsPlacement(positions, channels, quadlets)
    requires ArePackets(packets, base, quadlets, channels)
  {
    if n == 0 then []
    else AllOnTheBus(salt, packets, n - 1, base, quadlets, positions, channels) +
         OnTheBus(salt, packets, n - 1, base, quadlets, positions, channels)
  }

  function AllSamples(packets: seq<Packet>, n: nat): seq<Quadlet>
    requires n <= |packets|
  {
    if n == 0 then [] else AllSamples(packets, n - 1) + Flatten(packets[n - 1].plain, |packets[n - 1].plain|)
  }

  /** The packets of a run carry one encoded stream. */
  lemma {:induction false} RunIsStream(salt: SaltFunction, packets: seq<Packet>, n: nat, base: nat, quadlets: nat,
                                       positions: seq<nat>, channels: nat)
    requires n <= |packets| && IsPlacement(positions, channels, quadlets)
    requires ArePackets(packets, base, quadlets, channels)
    ensures var samples := AllSamples(packets, n);
            Encode(salt, INITIAL, samples, |samples|) ==
            (StateAfter(salt, packets, n), AllOnTheBus(salt, packets, n, base, quadlets, positions, channels))
  {
    hide Encode, EncodeBlocks, Flatten, OnTheBus, ArePackets, IsPlacement;
    if n == 0 {
      NothingEncoded(salt);
    } else {
      var p, s := packets[n - 1], StateAfter(salt, packets, n - 1);
      var head, block := AllSamples(packets, n - 1), Flatten(p.plain, |p.plain|);
      RunIsStream(salt, packets, n - 1, base, quadlets, positions, channels);
      EncodeConcat(salt, INITIAL, head, block, |block|);
      BlocksAreStream(salt, s, p.plain, |p.plain|);
      BlocksOnTheBus(salt, packets, n - 1, base, quadlets, positions, channels);
      assert AllSamples(packets, n) == head + block && |head + block| == |head| + |block|;
    }
  }

  lemma NothingEncoded(salt: SaltFunction)
    ensures Encode(salt, INITIAL, [], 0) == (INITIAL, [])
  {
  }

  lemma BlocksOnTheBus(salt: SaltFunction, packets: seq<Packet>, k: nat, base: nat, quadlets: nat,
                       positions: seq<nat>, channels: nat)
    requires k < |packets| && IsPlacement(positions, channels, quadlets)
    requires ArePackets(packets, base, quadlets, channels)
    ensures var p := packets[k];
            OnTheBus(salt, packets, k, base, quadlets, positions, channels) ==
            Flatten(EncodeBlocks(salt, StateAfter(salt, packets, k), p.plain, |p.plain|).1, |p.plain|)
  {
    var p := packets[k];
    var e := EncodeBlocks(salt, StateAfter(salt, packets, k), p.plain, |p.plain|).1;
    GetPutAll(p.area, base, quadlets, positions, channels, e, |p.plain|);
    assert e[..|p.plain|] == e;
  }

  /** From the state that prepare sets, and over any number of packets of any sizes, a
      decoder that starts with the driver recovers every sample, in order, and is
      in the driver's state behind every packet. */
  lemma RunDecodes(salt: SaltFunction, packets: seq<Packet>, n: nat, base: nat, quadlets: nat,
                   positions: seq<nat>, channels: nat)
    requires n <= |packets| && IsPlacement(positions, channels, quadlets)
    requires ArePackets(packets, base, quadlets, channels)
    ensures var stream := AllOnTheBus(salt, packets, n, base, quadlets, positions, channels);
            Decode(salt, INITIAL, stream, |stream|) == (StateAfter(salt, packets, n), AllSamples(packets, n))
  {
    RunIsStream(salt, packets, n, base, quadlets, positions, channels);
    DecodeEncode(salt, INITIAL, AllSamples(packets, n));
  }

  lemma {:induction false} PlainAt(dma: seq<bv32>, start: nat, wrap: nat, channels: nat, n: nat, i: nat)
    requires Fits(|dma|, start, wrap, channels, n) && i < n
    ensures Plain(dma, start, wrap, channels, n)[i] == FromFrame(Frame(dma, start, wrap, channels, i))
  {
    if i < n - 1 {
      PlainAt(dma, start, wrap, channels, n - 1, i);
    }
  }

  class DotStream {
    const salt: SaltFunction
    var carry: Byte
    var idx: Byte
    var off: Offset

    ghost function State(): DotState
      reads this
    {
      DotState(carry, idx, off)
    }

    constructor ()
      ensures State() == INITIAL && salt == Salt
    {
      salt := Salt;
      carry, idx, off := 0x00, 0x00, 0;
    }

    /** dot_encode_step's part on the state, for the byte that is encoded. */
    method Follow(data: Byte)
      modifies this
      ensures State() == Advance(salt, old(State()), data)
    {
      if data != 0x00 {
        off := 0;
        idx := data ^ carry;
      }
      off := NextOffset(off);
      carry := salt(idx, off);
    }

    /** dot_encode_step on buffer[k]. */
    method EncodeStep(buffer: array<Quadlet>, k: nat)
      requires k < buffer.Length
      modifies this, buffer
      ensures State() == Advance(salt, old(State()), old(buffer[k].b2))
      ensures buffer[..] == old(buffer[..])[k := Scramble(old(State()), old(buffer[k]))]
    {
      var data := buffer[k].b2;
      buffer[k] := buffer[k].(b2 := data ^ carry);
      Follow(data);
    }

    /** The inner loop: one frame into the data block at b. */
    method WriteFrame(buffer: array<Quadlet>, b: nat, positions: seq<nat>, channels: nat, dma: seq<bv32>, src: nat)
      requires channels <= |positions| && (forall c :: 0 <= c < channels ==> b + positions[c] < buffer.Length)
      requires src + channels <= |dma|
      modifies this, buffer
      ensures var (t, e) := Encode(salt, old(State()), FromFrame(dma[src..src + channels]), channels);
              State() == t && buffer[..] == PutBlock(old(buffer[..]), b, positions, e, channels)
    {
      hide FromFrame, Advance, Scramble;
      ghost var plain := FromFrame(dma[src..src + channels]);
      ghost var e := Encode(salt, State(), plain, channels).1;
      var c := 0;
      while c < channels
        invariant c <= channels
        invariant State() == Encode(salt, old(State()), plain, c).0
        invariant buffer[..] == PutBlock(old(buffer[..]), b, positions, e, c)
      {
        EncodeKeeps(salt, old(State()), plain, channels, c);
        ghost var area := buffer[..];
        buffer[b + positions[c]] := FromSample(dma[src + c]);
        assert buffer[..] == area[b + positions[c] := plain[c]];
        EncodeStep(buffer, b + positions[c]);
        assert buffer[..] == area[b + positions[c] := e[c]];
        c := c + 1;
      }
    }

    /** The first i of n frames have gone into the packet buffer, which held
        `area`, and the state, which was `was`, has followed. */
    ghost predicate Written(buffer: array<Quadlet>, area: seq<Quadlet>, base: nat, quadlets: nat, positions: seq<nat>,
                            channels: nat, was: DotState, plain: seq<seq<Quadlet>>, i: nat)
      requires IsPlacement(positions, channels, quadlets) && Slot(base, quadlets, |plain|) <= |area|
      requires i <= |plain| && forall j :: 0 <= j < |plain| ==> |plain[j]| == channels
      reads this, buffer
    {
      var (t, e) := EncodeBlocks(salt, was, plain, i);
      Slot(base, quadlets, i) <= |area| && State() == t
      && buffer[..] == PutBlocks(area, base, quadlets, positions, channels, e, i)
    }

    /** One pass of the outer loop: block i of n. */
    method WriteBlock(buffer: array<Quadlet>, b: nat, quadlets: nat, positions: seq<nat>, channels: nat, dma: seq<bv32>,
                      src: nat, remainingFrames: int, ghost area: seq<Quadlet>, ghost base: nat, ghost was: DotState,
                      ghost start: nat, ghost wrap: nat, ghost n: nat, ghost i: nat)
      returns (nextB: nat, nextSrc: nat)
      requires IsPlacement(positions, channels, quadlets) && Slot(base, quadlets, n) <= |area| && i < n
      requires Fits(|dma|, start, wrap, channels, n) && remainingFrames == wrap - i
      requires b == Slot(base, quadlets, i) && src == Source(start, wrap, channels, i)
      requires Written(buffer, area, base, quadlets, positions, channels, was, Plain(dma, start, wrap, channels, n), i)
      modifies this, buffer
      ensures nextB == Slot(base, quadlets, i + 1) && nextSrc == Source(start, wrap, channels, i + 1)
      ensures Written(buffer, area, base, quadlets, positions, channels, was, Plain(dma, start, wrap, channels, n),
                      i + 1)
    {
      hide Plain, Encode, FromFrame;
      ghost var plain := Plain(dma, start, wrap, channels, n);
      SlotOrder(base, quadlets, i, n);
      PlainAt(dma, start, wrap, channels, n, i);
      ghost var e := EncodeBlocks(salt, was, plain, i).1;
      ghost var e' := EncodeBlocks(salt, was, plain, i + 1).1;
      WriteFrame(buffer, b, positions, channels, dma, src);
      assert e' == e + [e'[i]];
      PutBlocksPrefix(area, base, quadlets, positions, channels, e, e', i);
      nextB := b + quadlets;
      nextSrc := if remainingFrames - 1 == 0 then 0 else src + channels;
    }

    /** write_pcm_s32: `frames` frames from the ring, which has bufferSize frames
        and is read from frame `pointer` on. */
    method WritePcmS32(buffer: array<Quadlet>, base: nat, quadlets: nat, positions: seq<nat>, channels: nat,
                       dma: seq<bv32>, bufferSize: nat, pointer: nat, frames: nat)
      requires IsPlacement(positions, channels, quadlets) && Slot(base, quadlets, frames) <= buffer.Length
      requires pointer < bufferSize && frames <= bufferSize && |dma| == FrameStart(channels, bufferSize)
      modifies this, buffer
      ensures Fits(|dma|, FrameStart(channels, pointer), bufferSize - pointer, channels, frames)
      ensures var plain := Plain(dma, FrameStart(channels, pointer), bufferSize - pointer, channels, frames);
              Written(buffer, old(buffer[..]), base, quadlets, positions, channels, old(State()), plain, frames)
    {
      RingFits(pointer, bufferSize, channels, frames);
      FrameStartIsProduct(channels, pointer);
      ghost var start, wrap := FrameStart(channels, pointer), bufferSize - pointer;
      ghost var was, area := State(), buffer[..];
      var src, remainingFrames, b := pointer * channels, bufferSize - pointer, base;
      var i := 0;
      hide FrameStart, Plain, EncodeBlocks;
      NothingWritten(buffer, base, quadlets, positions, channels, Plain(dma, start, wrap, channels, frames));
      while i < frames
        invariant i <= frames && remainingFrames == wrap - i
        invariant src == Source(start, wrap, channels, i) && b == Slot(base, quadlets, i)
        invariant Written(buffer, area, base, quadlets, positions, channels, was,
                          Plain(dma, start, wrap, channels, frames), i)
      {
        b, src := WriteBlock(buffer, b, quadlets, positions, channels, dma, src, remainingFrames, area, base, was,
                             start, wrap, frames, i);
        remainingFrames := remainingFrames - 1;
        i := i + 1;
      }
    }

    lemma NothingWritten(buffer: array<Quadlet>, base: nat, quadlets: nat, positions: seq<nat>, channels: nat,
                         plain: seq<seq<Quadlet>>)
      requires IsPlacement(positions, channels, quadlets) && Slot(base, quadlets, |plain|) <= buffer.Length
      requires forall j :: 0 <= j < |plain| ==> |plain[j]| == channels
      ensures Written(buffer, buffer[..], base, quadlets, positions, channels, State(), plain, 0)
    {
      SlotOrder(base, quadlets, 0, |plain| + 1);
    }
  }
}
