/** Packet timing of an AMDTP stream (IEC 61883-6): the two integer phase
    accumulators of sound/firewire/amdtp.c, one for presentation timestamps and
    one for the number of data blocks per packet, as functions on values.
    The class in amdtp_stream.dfy runs them on its fields. */
module AmdtpTiming {
  const TICKS_PER_CYCLE := 3072
  const CYCLES_PER_SECOND := 8000
  const TICKS_PER_SECOND := TICKS_PER_CYCLE * CYCLES_PER_SECOND
  const TRANSFER_DELAY_TICKS := 0x2e00
  const SYT_NO_INFO := 0xffff

  /** Sampling frequency code; the odd ones are the multiples of 44.1 kHz. */
  type Sfc = n: nat | n < 7

  const RATES: seq<nat> := [32000, 44100, 48000, 88200, 96000, 176400, 192000]
  const SYT_INTERVALS: seq<nat> := [8, 8, 8, 16, 16, 32, 32]

  function Rate(sfc: Sfc): nat { RATES[sfc] }

  function SytInterval(sfc: Sfc): nat { SYT_INTERVALS[sfc] }

  predicate IsBase44100(sfc: Sfc) { sfc % 2 == 1 }

  // ---------------------------------------------------------------------
  // Reference definitions: exact rational times and totals
  // ---------------------------------------------------------------------

  /** n / d rounded to the nearest integer, halves upward. */
  function RoundDiv(n: nat, d: nat): nat
    requires d > 0
  {
    (2 * n + d) / (2 * d)
  }

  function CeilDiv(n: nat, d: nat): nat
    requires d > 0
  {
    (n + d - 1) / d
  }

  /** Time, in ticks, of the m'th timestamp: that of sample m * SYT_INTERVAL. */
  function EventTime(sfc: Sfc, m: nat): nat {
    RoundDiv(m * SytInterval(sfc) * TICKS_PER_SECOND, Rate(sfc))
  }

  /** Number of timestamps that fall, exactly computed, before cycle n. */
  function EventsBefore(sfc: Sfc, n: nat): nat {
    CeilDiv(n * Rate(sfc), CYCLES_PER_SECOND * SytInterval(sfc))
  }

  /** The default transfer delay of IEC 61883-6 is 479.17 microseconds. */
  lemma DefaultDelay()
    ensures 479_160 < 1_000_000_000 * TRANSFER_DELAY_TICKS / 24_576_000 < 479_170
  {
  }

  /** TICKS_PER_SECOND * SYT_INTERVAL / rate: the blocking mode's extra delay. */
  function BlockingDelay(sfc: Sfc): nat {
    TICKS_PER_SECOND * SytInterval(sfc) / Rate(sfc)
  }

  /** ... which is the time between two timestamps, rounded down to a tick. */
  lemma DelayIsInterval(sfc: Sfc)
    ensures BlockingDelay(sfc) * Rate(sfc) <= SytInterval(sfc) * 24_576_000 < (BlockingDelay(sfc) + 1) * Rate(sfc)
    ensures BlockingDelay(sfc) <= EventTime(sfc, 1) <= BlockingDelay(sfc) + 1
  {
  }

  // ---------------------------------------------------------------------
  // calculate_syt
  // ---------------------------------------------------------------------

  /** last_syt_offset and syt_offset_state. */
  datatype SytState = SytState(last: nat, state: nat)

  function InitialSyt(sfc: Sfc): SytState {
    SytState(TICKS_PER_CYCLE, [3072, 67, 1024, 67, 1024, 67, 1024][sfc])
  }

  function ExtraTick(phase: nat): nat {
    var index := phase % 13;
    if (index != 0 && index % 4 == 0) || phase == 146 then 1 else 0
  }

  function SytStep(sfc: Sfc, s: SytState): SytState {
    if s.last < TICKS_PER_CYCLE then
      if !IsBase44100(sfc) then
        s.(last := s.last + s.state)
      else
        SytState(s.last + 1386 + ExtraTick(s.state), if s.state + 1 >= 147 then 0 else s.state + 1)
    else
      s.(last := s.last - TICKS_PER_CYCLE)
  }

  /** The SYT field of the packet sent in `cycle`; unsigned wrap-around of the
      cycle sum is absorbed by the final reduction to 16 bits. */
  function SytField(last: nat, transferDelay: nat, cycle: nat): nat {
    if last < TICKS_PER_CYCLE then
      var offset := last + transferDelay;
      ((cycle + offset / TICKS_PER_CYCLE) * 0x1000 + offset % TICKS_PER_CYCLE) % 0x1_0000
    else
      SYT_NO_INFO
  }

  /** State after n calls since the stream was started. */
  function SytAfter(sfc: Sfc, n: nat): SytState {
    if n == 0 then InitialSyt(sfc) else SytStep(sfc, SytAfter(sfc, n - 1))
  }

  /** Whether call k (counted from 0) yields a timestamp. */
  predicate Emits(sfc: Sfc, k: nat) {
    SytAfter(sfc, k + 1).last < TICKS_PER_CYCLE
  }

  /** Number of timestamps emitted by the first n calls. */
  function Emitted(sfc: Sfc, n: nat): nat {
    if n == 0 then 0 else Emitted(sfc, n - 1) + (if Emits(sfc, n - 1) then 1 else 0)
  }

  lemma Divide147(n: nat, q: nat, r: nat)
    requires n == 147 * q + r && r < 147
    ensures n / 147 == q && n % 147 == r
  {
  }

  /** The tick added at a phase is the carry of the accumulator 34 * phase / 147. */
  lemma ExtraTickIsCarry(phase: nat)
    requires phase < 147
    ensures ExtraTick(phase) == (34 * phase % 147 + 34) / 147
  {
    // 13 * 34 == 3 * 147 + 1, so the residue grows by one per 13 phases.
    var a, b := phase / 13, phase % 13;
    assert phase == 13 * a + b && a <= 11 && b <= 12 && (a == 11 ==> b <= 3);
    var q := if b <= 4 then 0 else if b <= 8 then 1 else 2;
    var r := a + 34 * b - 147 * q;
    assert 0 <= r < 147;
    Divide147(34 * phase, 3 * a + q, r);
    assert r >= 113 <==> (b != 0 && b % 4 == 0) || phase == 146;
  }

  /** For the multiples of 44.1 kHz the ideal time has this closed form. */
  lemma EventTimeBase44100(sfc: Sfc, m: nat)
    requires IsBase44100(sfc)
    ensures EventTime(sfc, m) == 4458 * m + (34 * m + 73) / 147
  {
    var n := m * SytInterval(sfc) * TICKS_PER_SECOND;
    var q := (34 * m + 73) / 147;
    assert sfc == 1 || sfc == 3 || sfc == 5;
    assert 147 * n == 655360 * m * Rate(sfc);
    assert (2 * n + Rate(sfc)) / (2 * Rate(sfc)) == 4458 * m + q;
  }

  /** For the other rates it is an integer without rounding. */
  lemma EventTimeInteger(sfc: Sfc, m: nat)
    requires !IsBase44100(sfc)
    ensures EventTime(sfc, m) == (TICKS_PER_CYCLE + InitialSyt(sfc).state) * m
  {
    var n := m * SytInterval(sfc) * TICKS_PER_SECOND;
    assert sfc == 0 || sfc == 2 || sfc == 4 || sfc == 6;
    assert n == (TICKS_PER_CYCLE + InitialSyt(sfc).state) * m * Rate(sfc);
  }

  /** The distance between neighbouring events is what the accumulator adds. */
  lemma EventTimeStep(sfc: Sfc, m: nat)
    ensures IsBase44100(sfc) ==>
              EventTime(sfc, m + 1) == EventTime(sfc, m) + 4458 + ExtraTick((67 + m) % 147)
    ensures !IsBase44100(sfc) ==>
              EventTime(sfc, m + 1) == EventTime(sfc, m) + TICKS_PER_CYCLE + InitialSyt(sfc).state
  {
    if IsBase44100(sfc) {
      EventTimeBase44100(sfc, m);
      EventTimeBase44100(sfc, m + 1);
      var phase, t := (67 + m) % 147, (67 + m) / 147;
      ExtraTickIsCarry(phase);
      var q, r := 34 * phase / 147, 34 * phase % 147;
      assert 34 * m + 73 == 147 * (34 * t + q - 15) + r;
      Divide147(34 * m + 73, 34 * t + q - 15, r);
      var carry := (r + 34) / 147;
      Divide147(34 * (m + 1) + 73, 34 * t + q - 15 + carry, r + 34 - 147 * carry);
    } else {
      EventTimeInteger(sfc, m);
      EventTimeInteger(sfc, m + 1);
    }
  }

  /** EventsBefore with the fraction of events per cycle reduced. */
  lemma EventsBeforeReduced(sfc: Sfc, n: nat)
    ensures sfc == 0 ==> EventsBefore(sfc, n) == (n + 1) / 2
    ensures IsBase44100(sfc) ==> EventsBefore(sfc, n) == (441 * n + 639) / 640
    ensures sfc != 0 && !IsBase44100(sfc) ==> EventsBefore(sfc, n) == (3 * n + 3) / 4
  {
    if IsBase44100(sfc) {
      EventsBeforeBase44100(sfc, n);
    } else if sfc == 0 {
    } else if sfc == 2 {
    } else if sfc == 4 {
    }
  }

  lemma EventsBeforeBase44100(sfc: Sfc, n: nat)
    requires IsBase44100(sfc)
    ensures EventsBefore(sfc, n) == (441 * n + 639) / 640
  {
    if sfc == 1 {
    } else if sfc == 3 {
    }
  }

  /** Rounding never moves an event across a cycle boundary: the rounded time
      of event m lies before cycle n exactly when its exact time does. */
  lemma RoundingKeepsCycle(sfc: Sfc, m: nat, n: nat)
    ensures EventTime(sfc, m) < TICKS_PER_CYCLE * n <==> m < EventsBefore(sfc, n)
  {
    EventsBeforeReduced(sfc, n);
    if IsBase44100(sfc) {
      EventTimeBase44100(sfc, m);
      var t := (34 * m + 73) / 147;
      assert 4458 * m + t < 3072 * n <==> 640 * m < 441 * n by {
        assert 655360 * m == 147 * 4458 * m + 34 * m;
        assert 147 * t <= 34 * m + 73 < 147 * t + 147;
        assert 147 * (3072 * n) == 451584 * n;
      }
      assert (441 * n + 639) / 640 > m <==> 640 * m < 441 * n;
    } else if sfc == 0 {
      EventTimeInteger(sfc, m);
    } else {
      EventTimeInteger(sfc, m);
    }
  }

  /** No cycle holds two events, and no two successive cycles hold none. */
  lemma EventsBeforeStep(sfc: Sfc, n: nat)
    ensures EventsBefore(sfc, n) <= EventsBefore(sfc, n + 1) <= EventsBefore(sfc, n) + 1
    ensures EventsBefore(sfc, n) < EventsBefore(sfc, n + 2)
  {
    EventsBeforeReduced(sfc, n);
    EventsBeforeReduced(sfc, n + 1);
    EventsBeforeReduced(sfc, n + 2);
    if sfc == 0 {
    } else if IsBase44100(sfc) {
    }
  }

  lemma SytStepArithmetic(sfc: Sfc, s: SytState, m: nat, k: nat, t: nat, t': nat)
    requires k > 0 && TICKS_PER_CYCLE * (k - 1) + s.last == t
    requires s.state == if IsBase44100(sfc) then (67 + m) % 147 else InitialSyt(sfc).state
    requires IsBase44100(sfc) ==> t' == t + 4458 + ExtraTick((67 + m) % 147)
    requires !IsBase44100(sfc) ==> t' == t + TICKS_PER_CYCLE + InitialSyt(sfc).state
    ensures var s' := SytStep(sfc, s); var m' := if s.last < TICKS_PER_CYCLE then m + 1 else m;
            && TICKS_PER_CYCLE * k + s'.last == (if s.last < TICKS_PER_CYCLE then t' else t)
            && s'.state == if IsBase44100(sfc) then (67 + m') % 147 else InitialSyt(sfc).state
  {
  }

  /** The comment in calculate_syt, for every rate and every call: the offset
      kept by the accumulator is that of the exactly rounded sequence, and the
      timestamps emitted so far are exactly the events before this cycle. */
  lemma {:induction false} SytSchedule(sfc: Sfc, k: nat)
    ensures TICKS_PER_CYCLE * k + SytAfter(sfc, k + 1).last == EventTime(sfc, Emitted(sfc, k))
    ensures Emitted(sfc, k) == EventsBefore(sfc, k)
    ensures SytAfter(sfc, k + 1).state ==
            if IsBase44100(sfc) then (67 + Emitted(sfc, k)) % 147 else InitialSyt(sfc).state
  {
    hide SytStep;
    if k == 0 {
      SytScheduleStart(sfc);
    } else {
      SytSchedule(sfc, k - 1);
      var m := Emitted(sfc, k - 1);
      EventTimeStep(sfc, m);
      RoundingKeepsCycle(sfc, m, k);
      EventsBeforeStep(sfc, k - 1);
      SytStepArithmetic(sfc, SytAfter(sfc, k), m, k, EventTime(sfc, m), EventTime(sfc, m + 1));
      assert SytAfter(sfc, k + 1) == SytStep(sfc, SytAfter(sfc, k));
    }
  }

  lemma SytScheduleStart(sfc: Sfc)
    ensures SytAfter(sfc, 1) == SytState(0, InitialSyt(sfc).state)
    ensures IsBase44100(sfc) ==> InitialSyt(sfc).state == 67
    ensures EventTime(sfc, 0) == 0 && EventsBefore(sfc, 0) == 0
  {
    assert SytAfter(sfc, 1) == SytStep(sfc, SytAfter(sfc, 0));
  }

  /** 16-bit SYT field to ticks modulo 16 cycles. */
  function SytTicks(syt: nat): nat
    requires syt < 0x1_0000
  {
    syt / 0x1000 * TICKS_PER_CYCLE + syt % 0x1000
  }

  lemma SytFieldDecodes(last: nat, transferDelay: nat, cycle: nat)
    requires last < TICKS_PER_CYCLE
    ensures var syt := SytField(last, transferDelay, cycle);
            && syt < SYT_NO_INFO
            && SytTicks(syt) == (TICKS_PER_CYCLE * cycle + last + transferDelay) % (16 * TICKS_PER_CYCLE)
  {
    var offset := last + transferDelay;
    var c, t := cycle + offset / TICKS_PER_CYCLE, offset % TICKS_PER_CYCLE;
    SplitCycle(c, t, c / 16, c % 16);
    assert TICKS_PER_CYCLE * cycle + offset == TICKS_PER_CYCLE * c + t;
  }

  lemma SplitCycle(c: nat, t: nat, high: nat, low: nat)
    requires c == 16 * high + low && low < 16 && t < TICKS_PER_CYCLE
    ensures (c * 0x1000 + t) % 0x1_0000 == low * 0x1000 + t
    ensures (low * 0x1000 + t) / 0x1000 == low && (low * 0x1000 + t) % 0x1000 == t
    ensures (TICKS_PER_CYCLE * c + t) % (16 * TICKS_PER_CYCLE) == low * TICKS_PER_CYCLE + t
  {
  }

  lemma SytFieldHasInfo(last: nat, transferDelay: nat, cycle: nat)
    ensures SytField(last, transferDelay, cycle) != 0xffff <==> last < 3072
  {
    if last < TICKS_PER_CYCLE {
      SytFieldDecodes(last, transferDelay, cycle);
    }
  }

  /** A packet carries a timestamp exactly when an event falls into its cycle,
      and the timestamp then stands for that event's exactly rounded time plus
      the transfer delay; `start` is the cycle of the first call. */
  lemma EmittedSyt(sfc: Sfc, k: nat, transferDelay: nat, start: nat)
    ensures var m := EventsBefore(sfc, k);
            var syt := SytField(SytAfter(sfc, k + 1).last, transferDelay, start + k);
            && (syt != SYT_NO_INFO <==> Emits(sfc, k))
            && (Emits(sfc, k) <==> EventsBefore(sfc, k + 1) == m + 1)
            && syt < 0x1_0000
            && (syt != SYT_NO_INFO ==>
              SytTicks(syt) == (TICKS_PER_CYCLE * start + EventTime(sfc, m) + transferDelay) % (16 * TICKS_PER_CYCLE))
  {
    SytSchedule(sfc, k);
    SytSchedule(sfc, k + 1);
    if Emits(sfc, k) {
      SytFieldDecodes(SytAfter(sfc, k + 1).last, transferDelay, start + k);
    }
  }

  // ---------------------------------------------------------------------
  // calculate_data_blocks
  // ---------------------------------------------------------------------

  function InitialBlockState(sfc: Sfc): nat { [4, 0, 6, 0, 12, 0, 24][sfc] }

  /** 80 >> (sfc >> 1). */
  function PhaseCount(sfc: Sfc): nat {
    if sfc <= 1 then 80 else if sfc <= 3 then 40 else if sfc <= 5 then 20 else 10
  }

  function DataBlocks(blocking: bool, sfc: Sfc, state: nat): nat {
    if blocking then SytInterval(sfc)
    else if !IsBase44100(sfc) then state
    else if sfc == 1 then
      5 + if (state % 2 == 1) != (state == 0 || state >= 40) then 1 else 0
    else
      11 * (sfc / 2) + if state == 0 then 1 else 0
  }

  function BlockStep(blocking: bool, sfc: Sfc, state: nat): nat {
    if blocking || !IsBase44100(sfc) then state
    else if state + 1 >= PhaseCount(sfc) then 0 else state + 1
  }

  /** handle_out_packet calls calculate_data_blocks unless the stream is in
      blocking mode and the packet has no timestamp. */
  predicate IsDataPacket(blocking: bool, hasSyt: bool) {
    !blocking || hasSyt
  }

  function PacketBlocks(blocking: bool, sfc: Sfc, state: nat, hasSyt: bool): nat {
    if IsDataPacket(blocking, hasSyt) then DataBlocks(blocking, sfc, state) else 0
  }

  function PacketBlockStep(blocking: bool, sfc: Sfc, state: nat, hasSyt: bool): nat {
    if IsDataPacket(blocking, hasSyt) then BlockStep(blocking, sfc, state) else state
  }

  /** data_block_state after the first n packets of a stream that generates
      its own timestamps. */
  function BlockStateAfter(blocking: bool, sfc: Sfc, n: nat): nat {
    if n == 0 then InitialBlockState(sfc)
    else PacketBlockStep(blocking, sfc, BlockStateAfter(blocking, sfc, n - 1), Emits(sfc, n - 1))
  }

  /** Data blocks in packet k (counted from 0) of such a stream. */
  function BlocksOf(blocking: bool, sfc: Sfc, k: nat): nat {
    PacketBlocks(blocking, sfc, BlockStateAfter(blocking, sfc, k), Emits(sfc, k))
  }

  /** Data blocks carried by its first n packets. */
  function TotalBlocks(blocking: bool, sfc: Sfc, n: nat): nat {
    if n == 0 then 0 else TotalBlocks(blocking, sfc, n - 1) + BlocksOf(blocking, sfc, n - 1)
  }

  lemma {:induction false} BlockingTotalScaled(sfc: Sfc, n: nat)
    ensures TotalBlocks(true, sfc, n) == SytInterval(sfc) * Emitted(sfc, n)
  {
    if n > 0 {
      BlockingTotalScaled(sfc, n - 1);
      NextMultiple(SytInterval(sfc), Emitted(sfc, n - 1));
    }
  }

  lemma NextMultiple(k: nat, e: nat)
    ensures k * (e + 1) == k * e + k
  {
  }

  /** Blocking mode: the first n packets carry SYT_INTERVAL blocks for each
      event that falls before cycle n, which is the exact rate rounded up to
      whole SYT intervals. */
  lemma BlockingTotal(sfc: Sfc, n: nat)
    ensures TotalBlocks(true, sfc, n) ==
            SytInterval(sfc) * CeilDiv(n * Rate(sfc), CYCLES_PER_SECOND * SytInterval(sfc))
  {
    BlockingTotalScaled(sfc, n);
    SytSchedule(sfc, n);
    assert Emitted(sfc, n) == EventsBefore(sfc, n);
  }

  /** ... and of two successive packets at least one carries data. */
  lemma BlockingNeverTwoEmpty(sfc: Sfc, k: nat)
    ensures BlocksOf(true, sfc, k) > 0 || BlocksOf(true, sfc, k + 1) > 0
  {
    SytSchedule(sfc, k);
    SytSchedule(sfc, k + 2);
    EventsBeforeStep(sfc, k);
    assert Emitted(sfc, k + 2) == Emitted(sfc, k + 1) + if Emits(sfc, k + 1) then 1 else 0;
  }

  // Non-blocking mode.

  /** The phase p that n packets reach after u full rounds. */
  predicate AtPhase(sfc: Sfc, n: nat, u: nat, p: nat) {
    && (sfc == 1 ==> n == 80 * u + p && p < 80)
    && (sfc == 3 ==> n == 40 * u + p && p < 40)
    && (sfc == 5 ==> n == 20 * u + p && p < 20)
    && (!IsBase44100(sfc) ==> p == InitialBlockState(sfc))
  }

  lemma {:induction false} PhaseAfter(sfc: Sfc, n: nat) returns (u: nat)
    ensures AtPhase(sfc, n, u, BlockStateAfter(false, sfc, n))
  {
    u := 0;
    if n > 0 {
      u := PhaseAfter(sfc, n - 1);
      if BlockStateAfter(false, sfc, n - 1) + 1 >= PhaseCount(sfc) {
        u := u + 1;
      }
    }
  }

  lemma {:induction false} NonBlockingRoundedUp(sfc: Sfc, n: nat)
    ensures TotalBlocks(false, sfc, n) == CeilDiv(n * Rate(sfc), CYCLES_PER_SECOND)
  {
    hide BlockStateAfter, Rate;
    if n == 0 {
      assert CeilDiv(0 * Rate(sfc), CYCLES_PER_SECOND) == 0;
    } else {
      NonBlockingRoundedUp(sfc, n - 1);
      var u := PhaseAfter(sfc, n - 1);
      NonBlockingShare(sfc, n - 1, u, BlockStateAfter(false, sfc, n - 1));
    }
  }

  lemma NonBlockingShare(sfc: Sfc, n: nat, u: nat, p: nat)
    requires AtPhase(sfc, n, u, p)
    ensures CeilDiv((n + 1) * Rate(sfc), CYCLES_PER_SECOND) ==
            CeilDiv(n * Rate(sfc), CYCLES_PER_SECOND) + DataBlocks(false, sfc, p)
  {
    if sfc == 1 {
      Share44100(p);
      assert CeilDiv(n * 44100, 8000) == 441 * u + (441 * p + 79) / 80;
      assert CeilDiv((n + 1) * 44100, 8000) == 441 * u + (441 * (p + 1) + 79) / 80;
    } else if sfc == 3 {
      assert CeilDiv(n * 88200, 8000) == 11 * n + u + (p + 39) / 40;
      assert CeilDiv((n + 1) * 88200, 8000) == 11 * (n + 1) + u + (p + 40) / 40;
    } else if sfc == 5 {
      assert CeilDiv(n * 176400, 8000) == 22 * n + u + (p + 19) / 20;
      assert CeilDiv((n + 1) * 176400, 8000) == 22 * (n + 1) + u + (p + 20) / 20;
    }
  }

  lemma Share44100(p: nat)
    requires p < 80
    ensures (441 * (p + 1) + 79) / 80 == (441 * p + 79) / 80 + DataBlocks(false, 1, p)
  {
    var a, b := p / 2, p % 2;
    assert p == 2 * a + b;
    Divide80(441 * p + 79, 5 * p + a, 2 * a + 41 * b + 79);
    Divide80(441 * (p + 1) + 79, 5 * p + 5 + a, 2 * a + 41 * b + 120);
  }

  lemma Divide80(n: nat, q: nat, r: nat)
    requires n == 80 * q + r && r < 240
    ensures n / 80 == q + if r < 80 then 0 else if r < 160 then 1 else 2
  {
  }

  /** The comment in calculate_data_blocks: the running total is the exact rate
      rounded up. It is never behind the rate, and no schedule that stays less
      than a whole block ahead of the rate carries more. */
  lemma NonBlockingTotal(sfc: Sfc, n: nat)
    ensures TotalBlocks(false, sfc, n) == CeilDiv(n * Rate(sfc), CYCLES_PER_SECOND)
    ensures n * Rate(sfc) <= CYCLES_PER_SECOND * TotalBlocks(false, sfc, n) < n * Rate(sfc) + CYCLES_PER_SECOND
    ensures forall schedule: nat :: CYCLES_PER_SECOND * schedule < n * Rate(sfc) + CYCLES_PER_SECOND ==>
              schedule <= TotalBlocks(false, sfc, n)
  {
    NonBlockingRoundedUp(sfc, n);
  }

  /** amdtp_stream_get_max_payload: two CIP quadlets and SYT_INTERVAL blocks. */
  function MaxPayload(sfc: Sfc, dataBlockQuadlets: nat): nat {
    8 + SytInterval(sfc) * dataBlockQuadlets * 4
  }

  lemma PacketFits(blocking: bool, sfc: Sfc, k: nat, dataBlockQuadlets: nat)
    ensures BlocksOf(blocking, sfc, k) <= SytInterval(sfc)
    ensures 8 + BlocksOf(blocking, sfc, k) * 4 * dataBlockQuadlets <= MaxPayload(sfc, dataBlockQuadlets)
    ensures blocking && BlocksOf(blocking, sfc, k) > 0 ==>
              8 + BlocksOf(blocking, sfc, k) * 4 * dataBlockQuadlets == MaxPayload(sfc, dataBlockQuadlets)
  {
    BlocksFit(blocking, sfc, k);
    PayloadFits(dataBlockQuadlets, BlocksOf(blocking, sfc, k), SytInterval(sfc));
  }

  lemma BlocksFit(blocking: bool, sfc: Sfc, k: nat)
    ensures BlocksOf(blocking, sfc, k) <= SytInterval(sfc)
  {
    if !blocking {
      var u := PhaseAfter(sfc, k);
    }
  }

  lemma PayloadFits(quadlets: nat, blocks: nat, limit: nat)
    requires blocks <= limit
    ensures 8 + blocks * 4 * quadlets <= 8 + limit * quadlets * 4
  {
    if quadlets > 0 {
      PayloadFits(quadlets - 1, blocks, limit);
    }
  }
}
