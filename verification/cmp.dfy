/** Connection management (sound/firewire/cmp.c, clauses 7 and 8 of IEC 61883-1):
    plug control registers changed by compare-and-swap while other controllers
    and bus resets interfere, and the connection's own state. */
module Cmp {
  import opened IsoResources

  type Register = bv32

  // ---------------------------------------------------------------------
  // Register fields
  // ---------------------------------------------------------------------

  const PCR_ONLINE: Register := 0x8000_0000
  const PCR_BCAST_CONN: Register := 0x4000_0000
  const PCR_P2P_CONN_MASK: Register := 0x3f00_0000
  const PCR_CHANNEL_MASK: Register := 0x003f_0000
  const OPCR_XSPEED_MASK: Register := 0x00C0_0000
  const OPCR_SPEED_MASK: Register := 0x0000_C000
  const OPCR_OVERHEAD_ID_MASK: Register := 0x0000_3C00

  const IPCR_OWN: Register := 0x7f3f_0000
  const OPCR_OWN: Register := 0x7fff_fc00

  function P2pCount(pcr: Register): Register { (pcr & PCR_P2P_CONN_MASK) >> 24 }
  function ChannelField(pcr: Register): Register { (pcr & PCR_CHANNEL_MASK) >> 16 }
  function OverheadField(pcr: Register): Register { (pcr & OPCR_OVERHEAD_ID_MASK) >> 10 }

  /** Speed code from the speed field, and the extended speed field beyond S400. */
  function SpeedField(pcr: Register): Register {
    var spd := (pcr & OPCR_SPEED_MASK) >> 14;
    if spd == 3 then 3 + ((pcr & OPCR_XSPEED_MASK) >> 22) else spd
  }

  function IpcrSet(channel: Register, ipcr: Register): Register {
    (ipcr & !IPCR_OWN) | (1 << 24) | (channel << 16)
  }

  function OpcrSet(channel: Register, speed: Register, overheadId: Register, opcr: Register): Register {
    var spd: Register := if speed > 2 then 3 else speed;
    var xspd: Register := if speed > 2 then speed - 3 else 0;
    (opcr & !OPCR_OWN) | (1 << 24) | (xspd << 22) | (channel << 16) | (spd << 14) | (overheadId << 10)
  }

  function PcrBreak(pcr: Register): Register { pcr & !(PCR_BCAST_CONN | PCR_P2P_CONN_MASK) }

  predicate InUse(pcr: Register) { pcr & (PCR_BCAST_CONN | PCR_P2P_CONN_MASK) != 0 }
  predicate Online(pcr: Register) { pcr & PCR_ONLINE != 0 }

  /** The fields of the plug control registers and their flags, as plain shifts. */
  lemma ConnectionBits(r: Register)
    ensures P2pCount(r) == (r >> 24) & 0x3f
    ensures InUse(r) <==> (r >> 24) & 0x7f != 0
  {
  }

  lemma ChannelBit(r: Register)
    ensures ChannelField(r) == (r >> 16) & 0x3f
  {
  }

  lemma OverheadBit(r: Register)
    ensures OverheadField(r) == (r >> 10) & 0xf
  {
  }

  lemma OnlineBit(r: Register)
    ensures Online(r) <==> r >= 0x8000_0000
  {
  }

  lemma SpeedBit(r: Register)
    ensures SpeedField(r) == if (r >> 14) & 3 < 3 then (r >> 14) & 3 else 3 + ((r >> 22) & 3)
  {
  }

  lemma IpcrSetFields(channel: Register, ipcr: Register)
    requires channel < 64
    ensures var r := IpcrSet(channel, ipcr);
            && P2pCount(r) == 1 && r & PCR_BCAST_CONN == 0 && ChannelField(r) == channel
            && r & !IPCR_OWN == ipcr & !IPCR_OWN
  {
  }

  lemma OpcrSetFields(channel: Register, speed: Register, overheadId: Register, opcr: Register)
    requires channel < 64 && speed <= 5 && overheadId < 16
    ensures var r := OpcrSet(channel, speed, overheadId, opcr);
            && P2pCount(r) == 1 && r & PCR_BCAST_CONN == 0 && ChannelField(r) == channel
            && SpeedField(r) == speed && OverheadField(r) == overheadId
            && (speed <= 2 ==> r & OPCR_XSPEED_MASK == 0)
            && r & !OPCR_OWN == opcr & !OPCR_OWN
  {
  }

  lemma SetMarks(r: Register, pcr: Register)
    requires P2pCount(r) == 1 && (r & !OPCR_OWN == pcr & !OPCR_OWN || r & !IPCR_OWN == pcr & !IPCR_OWN)
    ensures InUse(r)
    ensures Online(r) == Online(pcr)
  {
  }

  lemma BreakMarks(r: Register, pcr: Register)
    requires P2pCount(r) == 0 && r & PCR_BCAST_CONN == 0 && r & 0x80ff_ffff == pcr & 0x80ff_ffff
    ensures !InUse(r)
    ensures Online(r) == Online(pcr)
  {
  }

  lemma PcrBreakFields(pcr: Register)
    ensures var r := PcrBreak(pcr);
            P2pCount(r) == 0 && r & PCR_BCAST_CONN == 0 && r & 0x80ff_ffff == pcr & 0x80ff_ffff
  {
  }

  // ---------------------------------------------------------------------
  // Overhead ID
  // ---------------------------------------------------------------------

  /** The bandwidth overhead that an ID stands for. */
  function OverheadOf(id: nat): nat { if id == 0 then 512 else 32 * id }

  /** get_overhead_id: the smallest value of the table above the overhead, and
      the largest one if there is none. */
  method GetOverheadId(overhead: nat) returns (id: nat)
    ensures id < 16
    ensures overhead < 512 ==>
              && overhead < OverheadOf(id)
              && forall other :: other < 16 && overhead < OverheadOf(other) ==> OverheadOf(id) <= OverheadOf(other)
    ensures overhead >= 512 ==> forall other :: other < 16 ==> OverheadOf(other) <= OverheadOf(id)
    ensures id == OverheadId(overhead)
  {
    id := 1;
    while id < 16 && overhead >= 32 * id
      invariant 1 <= id <= 16 && overhead >= 32 * (id - 1)
    {
      id := id + 1;
    }
    if id == 16 {
      id := 0;
    }
  }

  function OverheadId(overhead: nat): nat {
    if overhead < 480 then overhead / 32 + 1 else 0
  }

  // ---------------------------------------------------------------------
  // pcr_modify
  // ---------------------------------------------------------------------

  const EISCONN := -106
  const ECONNREFUSED := -111

  /** Either register of a plug, as pcr_modify's callers change it. */
  datatype Change =
    | SetInput(channel: Channel)
    | SetOutput(channel: Channel, speed: Speed, overhead: nat)
    | BreakConnection

  function ChannelBits(channel: Channel): Register { (channel as bv6) as bv32 }
  function SpeedBits(speed: Speed): Register { (speed as bv3) as bv32 }
  function OverheadBits(overhead: nat): Register { (OverheadId(overhead) as bv4) as bv32 }

  function Modify(change: Change, pcr: Register): Register {
    match change
    case SetInput(channel) => IpcrSet(ChannelBits(channel), pcr)
    case SetOutput(channel, speed, overhead) =>
      OpcrSet(ChannelBits(channel), SpeedBits(speed), OverheadBits(overhead), pcr)
    case BreakConnection => PcrBreak(pcr)
  }

  /** The register describes the connection that the change sets up, and
      nothing else in it differs from `pcr`. */
  predicate Describes(change: Change, r: Register, pcr: Register) {
    match change
    case SetInput(channel) =>
      && P2pCount(r) == 1 && r & PCR_BCAST_CONN == 0 && ChannelField(r) == ChannelBits(channel)
      && r & !IPCR_OWN == pcr & !IPCR_OWN
    case SetOutput(channel, speed, overhead) =>
      && P2pCount(r) == 1 && r & PCR_BCAST_CONN == 0 && ChannelField(r) == ChannelBits(channel)
      && SpeedField(r) == SpeedBits(speed) && OverheadField(r) == OverheadBits(overhead)
      && (SpeedBits(speed) <= 2 ==> r & OPCR_XSPEED_MASK == 0)
      && r & !OPCR_OWN == pcr & !OPCR_OWN
    case BreakConnection =>
      && P2pCount(r) == 0 && r & PCR_BCAST_CONN == 0 && r & 0x80ff_ffff == pcr & 0x80ff_ffff
  }

  lemma ModifyDescribes(change: Change, pcr: Register)
    ensures Describes(change, Modify(change, pcr), pcr)
  {
    match change
    case SetInput(channel) =>
      SetInputDescribes(channel, pcr);
    case SetOutput(channel, speed, overhead) =>
      SetOutputDescribes(channel, speed, overhead, pcr);
    case BreakConnection =>
      BreakDescribes(pcr);
  }

  lemma ModifyMarks(change: Change, pcr: Register)
    ensures InUse(Modify(change, pcr)) <==> !change.BreakConnection?
    ensures Online(Modify(change, pcr)) == Online(pcr)
  {
    ModifyDescribes(change, pcr);
    DescribedMarks(change, Modify(change, pcr), pcr);
  }

  lemma DescribedMarks(change: Change, r: Register, pcr: Register)
    requires Describes(change, r, pcr)
    ensures InUse(r) <==> !change.BreakConnection?
    ensures Online(r) == Online(pcr)
  {
    if change.BreakConnection? {
      BreakMarks(r, pcr);
    } else {
      SetMarks(r, pcr);
    }
  }

  lemma SetInputDescribes(channel: Channel, pcr: Register)
    ensures Describes(SetInput(channel), Modify(SetInput(channel), pcr), pcr)
  {
    ChannelInRange(channel);
    IpcrSetFields(ChannelBits(channel), pcr);
    assert Modify(SetInput(channel), pcr) == IpcrSet(ChannelBits(channel), pcr);
  }

  lemma SetOutputDescribes(channel: Channel, speed: Speed, overhead: nat, pcr: Register)
    ensures Describes(SetOutput(channel, speed, overhead), Modify(SetOutput(channel, speed, overhead), pcr), pcr)
  {
    ChannelInRange(channel);
    SpeedInRange(speed);
    OverheadInRange(overhead);
    OpcrSetFields(ChannelBits(channel), SpeedBits(speed), OverheadBits(overhead), pcr);
    assert Modify(SetOutput(channel, speed, overhead), pcr) ==
           OpcrSet(ChannelBits(channel), SpeedBits(speed), OverheadBits(overhead), pcr);
  }

  lemma BreakDescribes(pcr: Register)
    ensures Describes(BreakConnection, Modify(BreakConnection, pcr), pcr)
  {
    PcrBreakFields(pcr);
    assert Modify(BreakConnection, pcr) == PcrBreak(pcr);
  }

  /** The field values stand for the numbers they were made from, and fit their fields. */
  lemma ChannelInRange(channel: Channel)
    ensures ChannelBits(channel) < 64 && ChannelBits(channel) as nat == channel
  {
    assert (channel as bv6) as nat == channel;
  }

  lemma SpeedInRange(speed: Speed)
    ensures SpeedBits(speed) <= 5 && SpeedBits(speed) as nat == speed
  {
    assert (speed as bv3) as nat == speed;
  }

  lemma OverheadInRange(overhead: nat)
    ensures OverheadBits(overhead) < 16 && OverheadBits(overhead) as nat == OverheadId(overhead)
  {
    assert (OverheadId(overhead) as bv4) as nat == OverheadId(overhead);
  }

  /** pcr_set_check; breaking a connection checks nothing. */
  function Check(change: Change, pcr: Register): int {
    if change.BreakConnection? then 0
    else if InUse(pcr) then EBUSY
    else if !Online(pcr) then ECONNREFUSED
    else 0
  }

  /** A connection is set up only at a plug that is on-line and free of any; breaking one
      is never refused. */
  lemma CheckCodes(change: Change, pcr: Register)
    ensures change.BreakConnection? ==> Check(change, pcr) >= 0
    ensures !change.BreakConnection? ==>
              && (Check(change, pcr) == -16 <==> (pcr >> 24) & 0x7f != 0)
              && (Check(change, pcr) == -111 <==> (pcr >> 24) & 0x7f == 0 && pcr < 0x8000_0000)
              && (Check(change, pcr) >= 0 <==> (pcr >> 24) & 0x7f == 0 && pcr >= 0x8000_0000)
  {
    hide InUse, Online;
    ConnectionBits(pcr);
    OnlineBit(pcr);
  }

  function Modifier(change: Change): Register -> Register { pcr => Modify(change, pcr) }

  function Checker(change: Change): Register -> int { pcr => Check(change, pcr) }
}
