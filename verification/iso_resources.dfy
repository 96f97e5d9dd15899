/** Isochronous resource management (sound/firewire/iso-resources.c): the client
    side, and a bus on which any number of clients allocate, update and free
    under bus resets. */
module IsoResources {
  // ---------------------------------------------------------------------
  // Arithmetic
  // ---------------------------------------------------------------------

  /** Speed codes S100 to S3200. */
  type Speed = n: nat | n <= 5

  function Pow2(n: nat): (r: nat)
    ensures r > 0
  {
    if n == 0 then 1 else 2 * Pow2(n - 1)
  }

  /** A packet's bytes: three header quadlets and the quadlet-aligned payload. */
  function PacketBytes(maxPayloadBytes: nat): nat { 3 * 4 + (maxPayloadBytes + 3) / 4 * 4 }

  function PacketBandwidth(maxPayloadBytes: nat, speed: Speed): nat {
    var bytes := PacketBytes(maxPayloadBytes);
    if speed <= 2 then bytes * Pow2(2 - speed)
    else (bytes + Pow2(speed - 2) - 1) / Pow2(speed - 2)
  }

  function BandwidthOverhead(gapCount: nat): nat {
    if gapCount < 63 then gapCount * 97 / 10 + 89 else 512
  }

  /** The bandwidth is the time of the packet in S400 bytes, rounded up: enough,
      and one unit less would not be. */
  lemma BandwidthIsExact(maxPayloadBytes: nat, speed: Speed)
    ensures PacketBandwidth(maxPayloadBytes, speed) * Pow2(speed) >= PacketBytes(maxPayloadBytes) * 4
    ensures (PacketBandwidth(maxPayloadBytes, speed) - 1) * Pow2(speed) < PacketBytes(maxPayloadBytes) * 4
    ensures maxPayloadBytes + 12 <= PacketBytes(maxPayloadBytes) < maxPayloadBytes + 16
  {
    assert Pow2(0) == 1 && Pow2(1) == 2 && Pow2(2) == 4;
    assert Pow2(3) == 8 && Pow2(4) == 16 && Pow2(5) == 32;
    assert speed in {0, 1, 2, 3, 4, 5};
  }

  /** The overhead is 89 units and 9.7 for each step of the gap count, whole units
      only; a gap count of 63, or more, is not an optimized one. */
  lemma OverheadIs(gapCount: nat)
    ensures gapCount < 63 ==> 10 * BandwidthOverhead(gapCount) <= 890 + 97 * gapCount
    ensures gapCount < 63 ==> 890 + 97 * gapCount < 10 * BandwidthOverhead(gapCount) + 10
    ensures gapCount >= 63 ==> BandwidthOverhead(gapCount) == 512
    ensures 89 <= BandwidthOverhead(gapCount) <= 690
  {
  }

  // ---------------------------------------------------------------------
  // struct fw_iso_resources
  // ---------------------------------------------------------------------

  type Channel = n: nat | n < 64

  datatype Resources = Resources(channelsMask: set<nat>, channel: Channel, bandwidth: nat, overhead: nat,
                                 generation: int, isAllocated: bool)

  function Amount(r: Resources): nat { r.bandwidth + r.overhead }

  /** What fw_iso_resource_manage answers. Again: the generation is stale, and
      nothing has happened. */
  datatype Answer = Granted(channel: Channel) | Again | Busy | IoError

  function ReadBus(r: Resources, generation: int, gapCount: nat): Resources {
    r.(generation := generation, overhead := BandwidthOverhead(gapCount))
  }

  function AllocateAnswer(r: Resources, a: Answer): Resources {
    if a.Granted? then r.(channel := a.channel, isAllocated := true) else r
  }

  /** A stale generation counts as success: it will be tried again. */
  function UpdateAnswer(r: Resources, a: Answer): Resources {
    if a.Busy? || a.IoError? then r.(isAllocated := false) else r
  }

  const EBADFD := -77
  const EAGAIN := -11
  const EBUSY := -16
  const EIO := -5
  const ERESTARTSYS := -512

  function ResultCode(a: Answer): int {
    match a
    case Granted(channel) => channel
    case Again => EAGAIN
    case Busy => EBUSY
    case IoError => EIO
  }

  /** The error numbers of errno.h; a channel is its own result. */
  lemma ResultCodes(channel: Channel)
    ensures ResultCode(Again) == -11 && ResultCode(Busy) == -16 && ResultCode(IoError) == -5
    ensures ResultCode(Granted(channel)) == channel && EBADFD == -77 && ERESTARTSYS == -512
  {
  }

  /** One round of fw_iso_resources_allocate's loop, as the bus decides it. */
  datatype Attempt = Attempt(generation: int, gapCount: nat, interrupted: bool, answer: Answer)

  predicate IsFinal(a: Attempt) { a.interrupted || !a.answer.Again? }

  /** The rounds of one call, of which the last one ends it. */
  type Attempts = s: seq<Attempt> | s != [] && IsFinal(s[|s| - 1]) witness [Attempt(0, 0, true, Again)]

  /** The resources after the attempts up to the first final one, and the result. */
  function AllocateRun(r: Resources, attempts: Attempts): (Resources, int)
    decreases |attempts|
  {
    var a := attempts[0];
    var read := ReadBus(r, a.generation, a.gapCount);
    if a.interrupted then (read, ERESTARTSYS)
    else if a.answer.Again? then AllocateRun(read, attempts[1..])
    else (AllocateAnswer(read, a.answer), ResultCode(a.answer))
  }

  /** A request to give a channel and bandwidth back. */
  datatype Return = Return(generation: int, channel: nat, amount: nat)

  class FwIsoResources {
    const channelsMask: set<nat>
    var channel: Channel
    var bandwidth: nat
    var bandwidthOverhead: nat
    var generation: int
    var isAllocated: bool

    ghost function View(): Resources
      reads this
    {
      Resources(channelsMask, channel, bandwidth, bandwidthOverhead, generation, isAllocated)
    }

    constructor (channelsMask: set<nat>)
      ensures !isAllocated && this.channelsMask == channelsMask
    {
      this.channelsMask := channelsMask;
      channel, bandwidth, bandwidthOverhead, generation, isAllocated := 0, 0, 0, 0, false;
    }

    /** fw_iso_resources_allocate. */
    method Allocate(maxPayloadBytes: nat, speed: Speed, attempts: Attempts) returns (result: int)
      modifies this
      ensures old(isAllocated) ==> result == EBADFD && View() == old(View())
      ensures !old(isAllocated) ==>
                var started := old(View()).(bandwidth := PacketBandwidth(maxPayloadBytes, speed));
                (View(), result) == AllocateRun(started, attempts)
    {
      if isAllocated {
        return EBADFD;
      }
      bandwidth := PacketBandwidth(maxPayloadBytes, speed);
      ghost var goal := AllocateRun(View(), attempts);
      var i := 0;
      while true
        invariant i < |attempts| && AllocateRun(View(), attempts[i..]) == goal && !isAllocated
        decreases |attempts| - i
      {
        var a := attempts[i];
        generation := a.generation;
        bandwidthOverhead := BandwidthOverhead(a.gapCount);
        if a.interrupted {
          return ERESTARTSYS;
        }
        if !a.answer.Again? {
          break;
        }
        assert attempts[i..][1..] == attempts[i + 1..];
        i := i + 1;
      }
      var answer := attempts[i].answer;
      if answer.Granted? {
        channel := answer.channel;
        isAllocated := true;
      }
      result := ResultCode(answer);
    }

    /** fw_iso_resources_update. */
    method Update(busGeneration: int, gapCount: nat, answer: Answer) returns (result: int)
      modifies this
      ensures if old(isAllocated)
              then
                && View() == UpdateAnswer(ReadBus(old(View()), busGeneration, gapCount), answer)
                && result == ResultCode(answer)
              else View() == old(View()) && result == 0
    {
      if !isAllocated {
        return 0;
      }
      generation := busGeneration;
      bandwidthOverhead := BandwidthOverhead(gapCount);
      if answer.Busy? || answer.IoError? {
        isAllocated := false;
      }
      result := ResultCode(answer);
    }

    /** fw_iso_resources_free; `returned` is what it asks the bus to take back. */
    method Free() returns (returned: seq<Return>)
      modifies this
      ensures View() == old(View()).(isAllocated := false)
      ensures returned == if old(isAllocated) then [Return(generation, channel, Amount(old(View())))] else []
    {
      returned := [];
      if isAllocated {
        returned := [Return(generation, channel, bandwidth + bandwidthOverhead)];
        isAllocated := false;
      }
    }
  }
}
