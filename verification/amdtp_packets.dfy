/** CIP headers (clause 6 of IEC 61883-1) and the data block counter protocol
    of sound/firewire/amdtp.c. Quadlets are unsigned 32-bit numbers; a field is
    cut out by division and remainder, and fields that do not overlap are put
    together by addition. */
module AmdtpPackets {
  import opened AmdtpTiming
  import opened AmdtpMidi

  const DBC_UNKNOWN := 0xffff_ffff    // UINT_MAX: first counter not checked

  /** The counter for the packet after one with these data blocks. */
  function NextDbc(dbc: nat, dataBlocks: nat): (r: nat)
    ensures r < 0x100
  {
    (dbc + dataBlocks) % 0x100
  }

  /** The flags that the receiving side looks at. */
  datatype Flags = Flags(dbcIsEndEvent: bool, wrongDbs: bool, skipDbcZeroCheck: bool, skipInitDbcCheck: bool,
                         emptyHasWrongDbc: bool)

  const NO_QUIRKS := Flags(false, false, false, false, false)

  /** The source node id field occupies bits 24 to 29. */
  type NodeField = q: nat | q % 0x100_0000 == 0 && q < 0x4000_0000

  function Header0(sourceNodeIdField: NodeField, dataBlockQuadlets: nat, dbc: nat): Quadlet
    requires dataBlockQuadlets < 0x100 && dbc < 0x100
  {
    sourceNodeIdField + dataBlockQuadlets * 0x1_0000 + dbc
  }

  function Header1(sfc: Sfc, syt: nat): Quadlet
    requires syt < 0x1_0000
  {
    0x8000_0000 + 0x1000_0000 + sfc * 0x1_0000 + syt
  }

  function EohBit(q: Quadlet): nat { q / 0x8000_0000 }
  function FmtField(q: Quadlet): nat { q / 0x100_0000 % 0x40 }
  function FdfField(q: Quadlet): nat { q / 0x1_0000 % 0x100 }
  function DbsField(q: Quadlet): nat { q / 0x1_0000 % 0x100 }
  function DbcField(q: Quadlet): nat { q % 0x100 }
  function SytOf(q: Quadlet): nat { q % 0x1_0000 }
  function SidField(q: Quadlet): nat { q / 0x100_0000 % 0x40 }

  lemma Header0Decodes(sourceNodeIdField: NodeField, dataBlockQuadlets: nat, dbc: nat)
    requires dataBlockQuadlets < 0x100 && dbc < 0x100
    ensures var h0 := Header0(sourceNodeIdField, dataBlockQuadlets, dbc);
            && EohBit(h0) == 0 && DbsField(h0) == dataBlockQuadlets && DbcField(h0) == dbc
            && SidField(h0) * 0x100_0000 == sourceNodeIdField
  {
    var n := sourceNodeIdField / 0x100_0000;
    var h0 := Header0(sourceNodeIdField, dataBlockQuadlets, dbc);
    assert h0 / 0x1_0000 == 0x100 * n + dataBlockQuadlets;
  }

  lemma Header1Decodes(sfc: Sfc, syt: nat)
    requires syt < 0x1_0000
    ensures var h1 := Header1(sfc, syt);
            EohBit(h1) == 1 && FmtField(h1) == 0x10 && FdfField(h1) == sfc && SytOf(h1) == syt
  {
    var h1 := Header1(sfc, syt);
    assert h1 / 0x100_0000 == 0x90 && h1 / 0x1_0000 == 0x9000 + sfc;
  }

  /** Data blocks behind the two header quadlets. */
  function BlockCount(payloadQuadlets: nat, quadlets: nat): nat
    requires payloadQuadlets >= 2 && quadlets > 0
  {
    (payloadQuadlets - 2) / quadlets
  }

  /** What a received packet is taken for. */
  datatype Reception =
    | Ignored                                  // not AMDTP: no effect
    | Failed                                   // bad DBS or lost blocks: streaming stops
    | Accepted(dataBlocks: nat, dbc: nat, next: nat)

  /** The decision of handle_in_packet. `expected` is data_block_counter,
      `quadlets` the stream's own block size, `interval` tx_dbc_interval. */
  function Receive(flags: Flags, expected: nat, quadlets: nat, interval: nat, h0: Quadlet, h1: Quadlet,
                   payloadQuadlets: nat): Reception
    requires quadlets > 0
  {
    if EohBit(h0) == 1 || EohBit(h1) != 1 || FmtField(h1) != 0x10 then Ignored
    else
      var noData := payloadQuadlets < 3 || FdfField(h1) == 0xff;
      if !noData && DbsField(h0) == 0 then Failed
      else
        var dbs := if flags.wrongDbs then quadlets else DbsField(h0);
        var dataBlocks := if noData then 0 else BlockCount(payloadQuadlets, dbs);
        CheckDbc(flags, expected, interval, DbcField(h0), dataBlocks)
  }

  /** "Check data block counter continuity" and the update of the counter. */
  function CheckDbc(flags: Flags, expected: nat, interval: nat, field: nat, dataBlocks: nat): Reception {
    var dbc := if dataBlocks == 0 && flags.emptyHasWrongDbc && expected != DBC_UNKNOWN then expected else field;
    var lost :=
      if (flags.skipDbcZeroCheck && dbc == 0) || expected == DBC_UNKNOWN then false
      else if !flags.dbcIsEndEvent then dbc != expected
      else dbc != NextDbc(expected, if dataBlocks > 0 && interval > 0 then interval else dataBlocks);
    if lost then Failed
    else Accepted(dataBlocks, dbc, if flags.dbcIsEndEvent then dbc else NextDbc(dbc, dataBlocks))
  }

  // ---------------------------------------------------------------------
  // The events of an accepted packet
  // ---------------------------------------------------------------------

  /** The number of the first event: the counter is the first one's, or, at the
      end of the packet, that of the event behind the last one. */
  function FirstEvent(flags: Flags, dbc: nat, dataBlocks: nat): nat {
    if flags.dbcIsEndEvent then (dbc + 0x100 - dataBlocks % 0x100) % 0x100 else dbc
  }

  /** Whether the counter that a stream has kept so far numbers the packet's
      events, as far as MIDI ports go: not if it was unset, or a counter of 0 was
      let pass, unless it happens to agree; and not if a device that counts in
      fixed steps sends another number of blocks. */
  predicate CountsEvents(flags: Flags, expected: nat, interval: nat, dbc: nat, dataBlocks: nat) {
    var last := if flags.dbcIsEndEvent then dataBlocks else 0;
    if dataBlocks == 0 then true
    else if expected == DBC_UNKNOWN then (dbc + 1) % 8 == last % 8
    else if flags.skipDbcZeroCheck && dbc == 0 then (expected + last) % 8 == 0
    else flags.dbcIsEndEvent && interval > 0 ==> interval % 8 == dataBlocks % 8
  }

  lemma WholeEights(a: int, k: int)
    ensures (a + 8 * k) % 8 == a % 8
  {
  }

  /** The arithmetic of the end-event mode, modulo 8 instead of 256. */
  lemma EndEventPorts(expected: nat, interval: nat, dbc: nat, dataBlocks: nat)
    ensures ((dbc + 0x100 - dataBlocks % 0x100) % 0x100 + dataBlocks) % 8 == dbc % 8
    ensures dbc == NextDbc(expected, interval) ==> dbc % 8 == (expected + interval) % 8
  {
    var x := dbc + 0x100 - dataBlocks % 0x100;
    assert x % 0x100 + dataBlocks == dbc + 8 * (32 * (1 + dataBlocks / 0x100 - x / 0x100));
    WholeEights(dbc, 32 * (1 + dataBlocks / 0x100 - x / 0x100));
    var y := expected + interval;
    assert y == y % 0x100 + 8 * (32 * (y / 0x100));
    WholeEights(y % 0x100, 32 * (y / 0x100));
  }

  lemma SumsModulo8(a: nat, b: nat, c: nat)
    ensures (a + c) % 8 == (b + c) % 8 <==> a % 8 == b % 8
  {
  }

  /** In end-event mode the first event's number behaves like `dbc - dataBlocks`. */
  lemma FirstEventModulo8(flags: Flags, dbc: nat, dataBlocks: nat, x: nat)
    requires flags.dbcIsEndEvent
    ensures x % 8 == FirstEvent(flags, dbc, dataBlocks) % 8 <==> (x + dataBlocks) % 8 == dbc % 8
  {
    EndEventPorts(0, 0, dbc, dataBlocks);
    SumsModulo8(x, FirstEvent(flags, dbc, dataBlocks), dataBlocks);
    hide FirstEvent;
  }

  /** The counter and the first event agree exactly under this condition. */
  lemma CounterIff(flags: Flags, expected: nat, interval: nat, field: nat, dataBlocks: nat)
    requires dataBlocks > 0
    ensures var r := CheckDbc(flags, expected, interval, field, dataBlocks);
            r.Accepted? ==>
              (expected % 8 == FirstEvent(flags, r.dbc, dataBlocks) % 8 <==>
               CountsEvents(flags, expected, interval, r.dbc, dataBlocks))
  {
    if flags.dbcIsEndEvent {
      FirstEventModulo8(flags, field, dataBlocks, expected);
      EndEventPorts(expected, if interval > 0 then interval else dataBlocks, field, dataBlocks);
      SumsModulo8(interval, dataBlocks, expected);
      UnsetCounter(field, dataBlocks);
      hide FirstEvent, NextDbc;
    }
  }

  lemma UnsetCounter(dbc: nat, last: nat)
    ensures (DBC_UNKNOWN + last) % 8 == dbc % 8 <==> (dbc + 1) % 8 == last % 8
  {
    assert DBC_UNKNOWN + last == (last + 7) + 8 * 0x1fff_ffff;
    WholeEights(last + 7, 0x1fff_ffff);
    SumsModulo8(last + 7, dbc, 1);
    WholeEights(last, 1);
  }

  /** MIDI bytes are handed out by that counter: block f of an accepted packet
      goes to the port of its event exactly under this condition. */
  lemma EventPortIff(flags: Flags, expected: nat, quadlets: nat, interval: nat, h0: Quadlet, h1: Quadlet,
                     payloadQuadlets: nat, f: nat)
    requires quadlets > 0
    ensures var r := Receive(flags, expected, quadlets, interval, h0, h1, payloadQuadlets);
            r.Accepted? && f < r.dataBlocks ==>
              (PortOf(expected, f) == PortOf(FirstEvent(flags, r.dbc, r.dataBlocks), f) <==>
               CountsEvents(flags, expected, interval, r.dbc, r.dataBlocks))
  {
    var r := Receive(flags, expected, quadlets, interval, h0, h1, payloadQuadlets);
    if r.Accepted? && f < r.dataBlocks {
      SamePort(expected, FirstEvent(flags, r.dbc, r.dataBlocks), f);
      CounterIff(flags, expected, interval, DbcField(h0), r.dataBlocks);
    }
    hide EohBit, FmtField, FdfField, DbsField, DbcField, BlockCount, PortOf, FirstEvent, CountsEvents, CheckDbc;
  }

  lemma BlocksOfPayload(dataBlocks: nat, quadlets: nat)
    requires quadlets > 0
    ensures (2 + dataBlocks * quadlets - 2) / quadlets == dataBlocks
    ensures dataBlocks > 0 ==> 2 + dataBlocks * quadlets >= 3
  {
    var p := dataBlocks * quadlets;
    if p / quadlets < dataBlocks {
      Grow(quadlets, p / quadlets + 1, dataBlocks);
    } else if p / quadlets > dataBlocks {
      Grow(quadlets, dataBlocks + 1, p / quadlets);
    }
    if dataBlocks > 0 {
      Grow(quadlets, 1, dataBlocks);
    }
  }

  lemma Grow(k: nat, a: nat, b: nat)
    requires a <= b
    ensures a * k <= b * k
  {
    if a < b {
      Grow(k, a, b - 1);
      assert b * k == (b - 1) * k + k;
    }
  }

  /** The header and the payload's size keep the blocks inside the payload: it
      has no data, or its own block size is not smaller than the stream's, or
      the smaller size makes no difference to the number of blocks. */
  predicate StaysInPayload(flags: Flags, quadlets: nat, h0: Quadlet, h1: Quadlet, payloadQuadlets: nat)
    requires quadlets > 0
  {
    || payloadQuadlets < 3 || FdfField(h1) == 0xff || flags.wrongDbs || DbsField(h0) == 0
    || DbsField(h0) >= quadlets
    || BlockCount(payloadQuadlets, DbsField(h0)) == BlockCount(payloadQuadlets, quadlets)
  }

  /** The blocks of the stream's own size that a payload has room for. */
  function OwnBlocks(quadlets: nat, payloadQuadlets: nat): nat
    requires quadlets > 0
  {
    if payloadQuadlets < 2 then 0 else BlockCount(payloadQuadlets, quadlets)
  }

  /** An accepted packet's blocks, of the stream's own size, lie inside the
      payload exactly under that condition: block sizes are not compared. */
  lemma AcceptedFitsIff(flags: Flags, expected: nat, quadlets: nat, interval: nat, h0: Quadlet, h1: Quadlet,
                        payloadQuadlets: nat)
    requires quadlets > 0
    ensures var r := Receive(flags, expected, quadlets, interval, h0, h1, payloadQuadlets);
            r.Accepted? ==>
              && (r.dataBlocks == 0 || 2 + r.dataBlocks * quadlets <= payloadQuadlets <==>
                  StaysInPayload(flags, quadlets, h0, h1, payloadQuadlets))
              && (StaysInPayload(flags, quadlets, h0, h1, payloadQuadlets) ==>
                  r.dataBlocks <= OwnBlocks(quadlets, payloadQuadlets))
  {
    var dbs := DbsField(h0);
    if payloadQuadlets >= 3 && dbs > 0 {
      OwnSizeFits(payloadQuadlets, quadlets);
      BlocksFitIff(payloadQuadlets, quadlets, dbs);
    }
    hide EohBit, FmtField, FdfField, DbsField, DbcField, BlockCount;
  }

  lemma OwnSizeFits(payloadQuadlets: nat, quadlets: nat)
    requires quadlets > 0 && payloadQuadlets >= 2
    ensures 2 + BlockCount(payloadQuadlets, quadlets) * quadlets <= payloadQuadlets
  {
    RoomFor(payloadQuadlets - 2, quadlets, BlockCount(payloadQuadlets, quadlets));
  }

  lemma BlocksFitIff(payloadQuadlets: nat, quadlets: nat, dbs: nat)
    requires quadlets > 0 && dbs > 0 && payloadQuadlets >= 2
    ensures 2 + BlockCount(payloadQuadlets, dbs) * quadlets <= payloadQuadlets <==>
            dbs >= quadlets || BlockCount(payloadQuadlets, dbs) == BlockCount(payloadQuadlets, quadlets)
    ensures 2 + BlockCount(payloadQuadlets, dbs) * quadlets <= payloadQuadlets ==>
            BlockCount(payloadQuadlets, dbs) <= BlockCount(payloadQuadlets, quadlets)
  {
    RoomFor(payloadQuadlets - 2, quadlets, BlockCount(payloadQuadlets, dbs));
    Coarser(payloadQuadlets - 2, quadlets, dbs);
  }

  /** n blocks fit exactly if n is at most the quotient. */
  lemma RoomFor(p: nat, quadlets: nat, n: nat)
    requires quadlets > 0
    ensures n * quadlets <= p <==> n <= p / quadlets
  {
    if n <= p / quadlets {
      Grow(quadlets, n, p / quadlets);
    } else {
      Grow(quadlets, p / quadlets + 1, n);
    }
  }

  /** Smaller blocks are not fewer. */
  lemma Coarser(p: nat, a: nat, b: nat)
    requires a > 0 && b > 0
    ensures b >= a ==> p / b <= p / a
    ensures b <= a ==> p / b >= p / a
  {
    var x, y := p / a, p / b;
    if b >= a && y > x {
      Grow(a, x + 1, y);
      Grow(y, a, b);
    }
    if b <= a && x > y {
      Grow(b, y + 1, x);
      Grow(x, b, a);
    }
  }

  /** The plain guard: a block size that is not too small. */
  lemma GuardedFits(flags: Flags, expected: nat, quadlets: nat, interval: nat, h0: Quadlet, h1: Quadlet,
                    payloadQuadlets: nat)
    requires quadlets > 0 && (flags.wrongDbs || DbsField(h0) >= quadlets)
    ensures var r := Receive(flags, expected, quadlets, interval, h0, h1, payloadQuadlets);
            r.Accepted? && r.dataBlocks > 0 ==> 2 + r.dataBlocks * quadlets <= payloadQuadlets
  {
    AcceptedFitsIff(flags, expected, quadlets, interval, h0, h1, payloadQuadlets);
  }

  /** Block size 1 in a packet of 66 quadlets, for a stream of block size 8: the
      packet is accepted, and the last of its 64 blocks would start far behind it. */
  lemma SmallBlocksWalkPast()
    ensures Receive(NO_QUIRKS, 0, 8, 0, 0x0001_0000, 0x9000_0000, 66) == Accepted(64, 0, 64)
    ensures 2 + 63 * 8 > 66
  {
  }

  /** A packet of the sending side is accepted by a receiver without quirk flags
      exactly when the counters agree; the receiver then knows the number of
      data blocks and both sides count on alike. */
  lemma ReceiveSent(sourceNodeIdField: NodeField, quadlets: nat, dbc: nat, sfc: Sfc, syt: nat, dataBlocks: nat,
                    expected: nat, interval: nat)
    requires 0 < quadlets < 0x100 && dbc < 0x100 && syt < 0x1_0000 && expected < 0x100
    ensures Receive(NO_QUIRKS, expected, quadlets, interval, Header0(sourceNodeIdField, quadlets, dbc),
                    Header1(sfc, syt), 2 + dataBlocks * quadlets) ==
            if dbc == expected then Accepted(dataBlocks, dbc, (dbc + dataBlocks) % 0x100) else Failed
  {
    Header0Decodes(sourceNodeIdField, quadlets, dbc);
    Header1Decodes(sfc, syt);
    BlocksOfPayload(dataBlocks, quadlets);
    assert dataBlocks == 0 ==> dataBlocks * quadlets == 0;
  }

  // ---------------------------------------------------------------------
  // Continuity over sequences of packets
  // ---------------------------------------------------------------------

  /** A packet as the continuity check sees it. */
  datatype Counted = Counted(dbc: nat, dataBlocks: nat)

  function SumBlocks(packets: seq<Counted>): nat {
    if packets == [] then 0 else packets[0].dataBlocks + SumBlocks(packets[1..])
  }

  /** The packets of a device that counts correctly from `dbc` on. */
  ghost predicate IsCounting(dbc: nat, packets: seq<Counted>)
    decreases |packets|
  {
    packets == [] || (packets[0].dbc == dbc && IsCounting(NextDbc(dbc, packets[0].dataBlocks), packets[1..]))
  }

  lemma NextDbcTwice(dbc: nat, a: nat, b: nat)
    ensures NextDbc(NextDbc(dbc, a), b) == NextDbc(dbc, a + b)
  {
  }

  lemma {:induction false} CountingSplit(dbc: nat, lost: seq<Counted>, rest: seq<Counted>)
    requires dbc < 0x100 && IsCounting(dbc, lost + rest)
    ensures IsCounting(NextDbc(dbc, SumBlocks(lost)), rest)
    decreases |lost|
  {
    if lost == [] {
      assert lost + rest == rest;
    } else {
      assert (lost + rest)[1..] == lost[1..] + rest;
      var next := NextDbc(dbc, lost[0].dataBlocks);
      CountingSplit(next, lost[1..], rest);
      NextDbcTwice(dbc, lost[0].dataBlocks, SumBlocks(lost[1..]));
    }
  }

  /** Whether the whole sequence gets through, and the counter after it. */
  function AcceptAll(flags: Flags, interval: nat, expected: nat, packets: seq<Counted>): (bool, nat)
    decreases |packets|
  {
    if packets == [] then (true, expected) else
      match CheckDbc(flags, expected, interval, packets[0].dbc, packets[0].dataBlocks)
      case Accepted(_, _, next) => AcceptAll(flags, interval, next, packets[1..])
      case _ => (false, expected)
  }

  /** What an undisturbed counting device sends, and nothing else, is accepted to the end. */
  lemma {:induction false} CountingAccepted(interval: nat, dbc: nat, packets: seq<Counted>)
    requires dbc < 0x100
    ensures AcceptAll(NO_QUIRKS, interval, dbc, packets).0 <==> IsCounting(dbc, packets)
    ensures IsCounting(dbc, packets) ==>
              AcceptAll(NO_QUIRKS, interval, dbc, packets).1 == (dbc + SumBlocks(packets)) % 0x100
    decreases |packets|
  {
    if packets != [] {
      var next := NextDbc(dbc, packets[0].dataBlocks);
      CountingAccepted(interval, next, packets[1..]);
      NextDbcTwice(dbc, packets[0].dataBlocks, SumBlocks(packets[1..]));
    }
  }

  /** After any run of lost packets the device's next packets are accepted if
      and only if the lost blocks total a multiple of 256: the check catches
      every other loss, on the very next packet. */
  lemma LossDetected(dbc: nat, lost: seq<Counted>, rest: seq<Counted>)
    requires dbc < 0x100 && rest != [] && IsCounting(dbc, lost + rest)
    ensures AcceptAll(NO_QUIRKS, 0, dbc, rest).0 <==> SumBlocks(lost) % 0x100 == 0
    ensures CheckDbc(NO_QUIRKS, dbc, 0, rest[0].dbc, rest[0].dataBlocks).Failed? <==> SumBlocks(lost) % 0x100 != 0
  {
    CountingSplit(dbc, lost, rest);
    var d := NextDbc(dbc, SumBlocks(lost));
    assert d == dbc <==> SumBlocks(lost) % 0x100 == 0;
    CountingAccepted(0, dbc, rest);
  }

  const END_EVENT := NO_QUIRKS.(dbcIsEndEvent := true)

  /** The packets with each counter moved from the end of its packet's blocks to
      their beginning. */
  function AtBeginning(packets: seq<Counted>): (r: seq<Counted>)
    ensures |r| == |packets|
  {
    if packets == [] then [] else
      var first := packets[0];
      [Counted((first.dbc + 0x100 - first.dataBlocks % 0x100) % 0x100, first.dataBlocks)] + AtBeginning(packets[1..])
  }

  /** CIP_DBC_IS_END_EVENT accepts a sequence exactly when the standard check
      accepts it with every counter so moved, and it ends at the same count. */
  lemma {:induction false} EndEventIsShifted(expected: nat, packets: seq<Counted>)
    requires expected < 0x100 && forall k :: 0 <= k < |packets| ==> packets[k].dbc < 0x100
    ensures AcceptAll(END_EVENT, 0, expected, packets).0 == AcceptAll(NO_QUIRKS, 0, expected, AtBeginning(packets)).0
    ensures AcceptAll(END_EVENT, 0, expected, packets).0 ==>
              AcceptAll(END_EVENT, 0, expected, packets).1 == AcceptAll(NO_QUIRKS, 0, expected, AtBeginning(packets)).1
    decreases |packets|
  {
    if packets != [] {
      var p := packets[0];
      EndEventStep(expected, p);
      assert AtBeginning(packets)[1..] == AtBeginning(packets[1..]);
      if p.dbc == (expected + p.dataBlocks) % 0x100 {
        EndEventIsShifted(p.dbc, packets[1..]);
      }
    }
  }

  lemma EndEventStep(expected: nat, p: Counted)
    requires expected < 0x100 && p.dbc < 0x100
    ensures var shifted := (p.dbc + 0x100 - p.dataBlocks % 0x100) % 0x100;
            && (p.dbc == (expected + p.dataBlocks) % 0x100 <==> shifted == expected)
            && (shifted == expected ==> (shifted + p.dataBlocks) % 0x100 == p.dbc)
  {
  }

  // ---------------------------------------------------------------------
  // The other quirks
  // ---------------------------------------------------------------------

  /** A header that is AMDTP at all: no end-of-header bit in the first quadlet, and the
      second one begins with binary 10, or 11, and format 0x10. */
  lemma IgnoredIff(flags: Flags, expected: nat, quadlets: nat, interval: nat, h0: Quadlet, h1: Quadlet,
                   payloadQuadlets: nat)
    requires quadlets > 0
    ensures Receive(flags, expected, quadlets, interval, h0, h1, payloadQuadlets).Ignored? <==>
            h0 >= 0x8000_0000 || !(0x9000_0000 <= h1 < 0x9100_0000 || 0xd000_0000 <= h1 < 0xd100_0000)
  {
  }

  /** Devices whose empty packets have a wrong counter: it is not looked at. */
  lemma EmptyIsTransparent(flags: Flags, expected: nat, quadlets: nat, interval: nat, h0: Quadlet, h1: Quadlet,
                           payloadQuadlets: nat)
    requires quadlets > 0 && flags.emptyHasWrongDbc && expected < 0x100
    requires h0 < 0x8000_0000 && 0x9000_0000 <= h1 < 0x9100_0000
    requires payloadQuadlets <= 2 || h1 / 0x1_0000 == 0x90ff
    ensures Receive(flags, expected, quadlets, interval, h0, h1, payloadQuadlets) == Accepted(0, expected, expected)
  {
    assert h1 / 0x100_0000 == 0x90;
    assert h1 / 0x1_0000 == 0x90ff ==> FdfField(h1) == 0xff;
  }

  /** The empty packet of such a device, whose counter is 8 too far. */
  lemma EmptyWithWrongCounter()
    ensures Receive(NO_QUIRKS.(emptyHasWrongDbc := true), 0x20, 6, 0, 0x0006_0028, 0x9002_ffff, 2) ==
            Accepted(0, 0x20, 0x20)
    ensures Receive(NO_QUIRKS, 0x20, 6, 0, 0x0006_0028, 0x9002_ffff, 2) == Failed
  {
  }

  function DataPackets(packets: seq<Counted>): seq<Counted> {
    if packets == [] then []
    else if packets[0].dataBlocks == 0 then DataPackets(packets[1..])
    else [packets[0]] + DataPackets(packets[1..])
  }

  /** The empty packets have the counters that belong there. */
  ghost predicate EmptiesCount(dbc: nat, packets: seq<Counted>)
    decreases |packets|
  {
    packets == [] ||
    ((packets[0].dataBlocks == 0 ==> packets[0].dbc == dbc) &&
     EmptiesCount(NextDbc(dbc, packets[0].dataBlocks), packets[1..]))
  }

  lemma {:induction false} CountingIff(dbc: nat, packets: seq<Counted>)
    requires dbc < 0x100
    ensures IsCounting(dbc, packets) <==> IsCounting(dbc, DataPackets(packets)) && EmptiesCount(dbc, packets)
    decreases |packets|
  {
    if packets != [] {
      var p := packets[0];
      CountingIff(NextDbc(dbc, p.dataBlocks), packets[1..]);
      if p.dataBlocks > 0 {
        assert DataPackets(packets)[1..] == DataPackets(packets[1..]);
      }
    }
  }

  lemma EmptyHasWrongDbcStep(interval: nat, expected: nat, p: Counted)
    requires expected < 0x100
    ensures CheckDbc(NO_QUIRKS.(emptyHasWrongDbc := true), expected, interval, p.dbc, p.dataBlocks) ==
            if p.dataBlocks == 0 then Accepted(0, expected, NextDbc(expected, 0))
            else if p.dbc == expected then Accepted(p.dataBlocks, expected, NextDbc(expected, p.dataBlocks))
            else Failed
  {
  }

  lemma {:induction false} EmptiesIgnored(interval: nat, expected: nat, packets: seq<Counted>)
    requires expected < 0x100
    ensures var (all, end) := AcceptAll(NO_QUIRKS.(emptyHasWrongDbc := true), interval, expected, packets);
            && (all <==> IsCounting(expected, DataPackets(packets)))
            && (all ==> end == (expected + SumBlocks(packets)) % 0x100)
    decreases |packets|
  {
    hide CheckDbc;
    if packets != [] {
      var p := packets[0];
      EmptyHasWrongDbcStep(interval, expected, p);
      EmptiesIgnored(interval, NextDbc(expected, p.dataBlocks), packets[1..]);
      if p.dataBlocks > 0 {
        NextDbcTwice(expected, p.dataBlocks, SumBlocks(packets[1..]));
        assert DataPackets(packets)[1..] == DataPackets(packets[1..]);
      }
    }
  }

  /** With the flag a sequence is accepted exactly if its data packets count, whatever
      stands in the empty ones, and the count goes on behind it; without the flag
      exactly if the empty ones are right too. */
  lemma EmptyCountersIff(interval: nat, expected: nat, packets: seq<Counted>)
    requires expected < 0x100
    ensures var (all, end) := AcceptAll(NO_QUIRKS.(emptyHasWrongDbc := true), interval, expected, packets);
            && (all <==> IsCounting(expected, DataPackets(packets)))
            && (all ==> end == (expected + SumBlocks(packets)) % 0x100)
    ensures AcceptAll(NO_QUIRKS, interval, expected, packets).0 <==>
            IsCounting(expected, DataPackets(packets)) && EmptiesCount(expected, packets)
  {
    EmptiesIgnored(interval, expected, packets);
    CountingAccepted(interval, expected, packets);
    CountingIff(expected, packets);
  }

  /** Devices that may start over: each packet counts on, or has the counter 0. */
  ghost predicate CountsOrRestarts(dbc: nat, packets: seq<Counted>)
    decreases |packets|
  {
    packets == [] ||
    ((packets[0].dbc == dbc || packets[0].dbc == 0) &&
     CountsOrRestarts(NextDbc(packets[0].dbc, packets[0].dataBlocks), packets[1..]))
  }

  lemma {:induction false} RestartsIff(expected: nat, packets: seq<Counted>)
    requires expected < 0x100
    ensures AcceptAll(NO_QUIRKS.(skipDbcZeroCheck := true), 0, expected, packets).0 <==>
            CountsOrRestarts(expected, packets)
    decreases |packets|
  {
    if packets != [] {
      RestartsIff(NextDbc(packets[0].dbc, packets[0].dataBlocks), packets[1..]);
    }
  }

  /** While no counter is known, the first packet sets it. */
  lemma FirstCounterIsTaken(packets: seq<Counted>)
    requires packets != [] && packets[0].dbc < 0x100
    ensures AcceptAll(NO_QUIRKS, 0, DBC_UNKNOWN, packets) == AcceptAll(NO_QUIRKS, 0, packets[0].dbc, packets)
    ensures AcceptAll(NO_QUIRKS, 0, DBC_UNKNOWN, packets).0 <==> IsCounting(packets[0].dbc, packets)
  {
    CountingAccepted(0, packets[0].dbc, packets);
  }

  /** Devices that report a wrong block size: their blocks are counted by the stream's
      own one, unless the size is 0. */
  lemma OwnSizeCounts(flags: Flags, expected: nat, quadlets: nat, interval: nat, h0: Quadlet, h1: Quadlet,
                      payloadQuadlets: nat)
    requires quadlets > 0 && flags.wrongDbs
    ensures var r := Receive(flags, expected, quadlets, interval, h0, h1, payloadQuadlets);
            && (r.Accepted? && payloadQuadlets >= 3 && h1 / 0x1_0000 % 0x100 != 0xff ==>
                  r.dataBlocks * quadlets <= payloadQuadlets - 2 < (r.dataBlocks + 1) * quadlets)
            && (r.Accepted? && payloadQuadlets >= 3 && h1 / 0x1_0000 % 0x100 != 0xff ==> h0 / 0x1_0000 % 0x100 != 0)
  {
    if payloadQuadlets >= 3 {
      RoomFor(payloadQuadlets - 2, quadlets, BlockCount(payloadQuadlets, quadlets));
      RoomFor(payloadQuadlets - 2, quadlets, BlockCount(payloadQuadlets, quadlets) + 1);
    }
    hide CheckDbc, BlockCount;
  }

  /** Devices that count in fixed steps, at the end of each data packet. */
  ghost predicate Steps(interval: nat, dbc: nat, packets: seq<Counted>)
    decreases |packets|
  {
    packets == [] ||
    (packets[0].dbc == (if packets[0].dataBlocks > 0 then (dbc + interval) % 0x100 else dbc) &&
     Steps(interval, packets[0].dbc, packets[1..]))
  }

  /** They are accepted exactly if they do that, however many blocks they send. */
  lemma {:induction false} StepsIff(interval: nat, expected: nat, packets: seq<Counted>)
    requires interval > 0 && expected < 0x100
    ensures AcceptAll(END_EVENT, interval, expected, packets).0 <==> Steps(interval, expected, packets)
    decreases |packets|
  {
    if packets != [] {
      if packets[0].dbc < 0x100 {
        StepsIff(interval, packets[0].dbc, packets[1..]);
      }
    }
  }
}
