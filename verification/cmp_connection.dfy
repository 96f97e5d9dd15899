/** The connection of sound/firewire/cmp.c: isochronous resources and a plug
    register held together by establish, update and break. */
module CmpConnections {
  import opened IsoResources
  import opened Cmp
  import opened CompareSwap

  datatype Direction = Input | Output

  // ---------------------------------------------------------------------
  // The connection as a value
  // ---------------------------------------------------------------------

  /** struct cmp_connection. */
  datatype Connection = Connection(direction: Direction, speed: Speed, connected: bool, resources: Resources,
                                   last: Register)

  function SetChange(c: Connection): Change {
    if c.direction.Output? then SetOutput(c.resources.channel, c.speed, c.resources.overhead)
    else SetInput(c.resources.channel)
  }

  /** The register says what the connection is: one point-to-point connection and no
      broadcast one, on the connection's channel; for an output plug also its speed, as
      an extended one beyond S400 only, and the identifier of its overhead. Every other bit is as in `was`. */
  predicate Registered(c: Connection, r: Register, was: Register) {
    && P2pCount(r) == 1 && r & 0x4000_0000 == 0 && ChannelField(r) as nat == c.resources.channel
    && match c.direction
       case Output =>
         && SpeedField(r) as nat == c.speed && (SpeedField(r) <= 2 ==> r & 0x00c0_0000 == 0)
         && OverheadField(r) as nat == (if c.resources.overhead < 480 then c.resources.overhead / 32 + 1 else 0)
         && r & 0x8000_03ff == was & 0x8000_03ff
       case Input => r & 0x80c0_ffff == was & 0x80c0_ffff
  }

  lemma SetRegisters(c: Connection, was: Register)
    ensures Registered(c, Modify(SetChange(c), was), was)
  {
    hide Modify, Describes, Registered, ChannelBits;
    ModifyDescribes(SetChange(c), was);
    if c.direction.Output? {
      OutputRegisters(c, Modify(SetChange(c), was), was);
    } else {
      InputRegisters(c, Modify(SetChange(c), was), was);
    }
  }

  lemma InputRegisters(c: Connection, r: Register, was: Register)
    requires c.direction.Input? && Describes(SetInput(c.resources.channel), r, was)
    ensures Registered(c, r, was)
  {
    hide P2pCount, ChannelField, ChannelBits;
    OutsideInput(r, was);
    ChannelInRange(c.resources.channel);
    SameNumber(ChannelField(r), ChannelBits(c.resources.channel));
  }

  lemma OutputRegisters(c: Connection, r: Register, was: Register)
    requires c.direction.Output? && Describes(SetOutput(c.resources.channel, c.speed, c.resources.overhead), r, was)
    ensures Registered(c, r, was)
  {
    hide P2pCount, ChannelField, SpeedField, OverheadField, ChannelBits, SpeedBits, OverheadBits;
    OutsideOutput(r, was);
    ChannelInRange(c.resources.channel);
    SpeedInRange(c.speed);
    OverheadInRange(c.resources.overhead);
    SameNumber(ChannelField(r), ChannelBits(c.resources.channel));
    SameNumber(SpeedField(r), SpeedBits(c.speed));
    SameNumber(OverheadField(r), OverheadBits(c.resources.overhead));
  }

  lemma SameNumber(a: Register, b: Register)
    requires a == b
    ensures a as nat == b as nat
  {
  }

  lemma OutsideInput(r: Register, was: Register)
    requires r & !IPCR_OWN == was & !IPCR_OWN
    ensures r & 0x80c0_ffff == was & 0x80c0_ffff
  {
  }

  lemma OutsideOutput(r: Register, was: Register)
    requires r & !OPCR_OWN == was & !OPCR_OWN
    ensures r & 0x8000_03ff == was & 0x8000_03ff
  {
  }

  function Freed(c: Connection): Connection { c.(resources := c.resources.(isAllocated := false)) }

  /** One pass over the retry label of cmp_connection_establish: how the bus
      manager and the device answer. */
  datatype Round = Round(attempts: Attempts, responses: seq<Response<Register>>)

  predicate EndsCall(round: Round) { round.attempts[0].interrupted }

  /** The passes of one call. The last one is a signal that interrupts the
      call; it is reached only if bus resets spoil every other pass. */
  type Rounds = s: seq<Round> | s != [] && EndsCall(s[|s| - 1]) witness [Round([Attempt(0, 0, true, Again)], [])]

  /** cmp_connection_establish after its first check. */
  function EstablishRun(c: Connection, maxPayloadBytes: nat, rounds: Rounds): (Connection, int)
    decreases |rounds|
  {
    if c.resources.isAllocated then (c, EBADFD) else
    var (resources, result) := AllocateRun(c.resources.(bandwidth := PacketBandwidth(maxPayloadBytes, c.speed)),
                                           rounds[0].attempts);
    var tried := c.(resources := resources);
    if result < 0 then (tried, result) else
    var o := SetRegister(tried, false, rounds[0].responses);
    if o.err == EAGAIN then EstablishRun(Freed(tried), maxPayloadBytes, rounds[1..])
    else if o.err < 0 then (Freed(tried), o.err)
    else (tried.(connected := true, last := o.last), 0)
  }

  function SetRegister(c: Connection, succeedOnReset: bool, responses: seq<Response<Register>>): Outcome<Register> {
    PcrModify(Modifier(SetChange(c)), Checker(SetChange(c)), c.last, c.last, succeedOnReset, responses, 0)
  }

  function Establish(c: Connection, speed: Speed, maxPayloadBytes: nat, rounds: Rounds): (Connection, int) {
    if c.connected then (c, EISCONN) else EstablishRun(c.(speed := speed), maxPayloadBytes, rounds)
  }

  /** cmp_connection_update. */
  function Update(c: Connection, generation: int, gapCount: nat, answer: Answer,
                  responses: seq<Response<Register>>): (Connection, int) {
    if !c.connected then (c, 0) else
    var result := if c.resources.isAllocated then ResultCode(answer) else 0;
    var updated := if c.resources.isAllocated
                   then c.(resources := UpdateAnswer(ReadBus(c.resources, generation, gapCount), answer)) else c;
    if result < 0 then (updated.(connected := false), result) else
    var o := SetRegister(updated, true, responses);
    if o.err < 0 then (Freed(updated).(connected := false), o.err) else (updated.(last := o.last), 0)
  }

  /** cmp_connection_break. */
  function Break(c: Connection, responses: seq<Response<Register>>): Connection {
    if !c.connected then c
    else
      var o := PcrModify(Modifier(BreakConnection), Checker(BreakConnection), c.last, c.last, true, responses, 0);
      Freed(c).(connected := false, last := o.last)
  }

  // ---------------------------------------------------------------------
  // struct cmp_connection, changed in place
  // ---------------------------------------------------------------------

  class CmpConnection {
    const direction: Direction
    const maxSpeed: Speed
    const resources: FwIsoResources
    var speed: Speed
    var connected: bool
    var lastPcrValue: Register

    ghost function View(): Connection
      reads this, resources
    {
      Connection(direction, speed, connected, resources.View(), lastPcrValue)
    }

    constructor (direction: Direction, maxSpeed: Speed, channelsMask: set<nat>)
      ensures !connected && !resources.isAllocated && fresh(resources) && Safe(View())
      ensures this.direction == direction && this.maxSpeed == maxSpeed
    {
      this.direction, this.maxSpeed := direction, maxSpeed;
      this.resources := new FwIsoResources(channelsMask);
      speed, connected, lastPcrValue := 0, false, 0x8000_0000;
    }

    method ModifyRegister(change: Change, succeedOnReset: bool, responses: seq<Response<Register>>) returns (err: int)
      modifies this`lastPcrValue
      ensures var o := PcrModify(Modifier(change), Checker(change), old(lastPcrValue), old(lastPcrValue),
                                 succeedOnReset, responses, 0);
              err == o.err && lastPcrValue == o.last
    {
      err, lastPcrValue := PcrModifyLoop(Modifier(change), Checker(change), lastPcrValue, succeedOnReset, responses);
    }

    method SetPlug(succeedOnReset: bool, responses: seq<Response<Register>>) returns (err: int)
      modifies this`lastPcrValue
      ensures var o := SetRegister(old(View()), succeedOnReset, responses);
              err == o.err && lastPcrValue == o.last
    {
      var change := if direction == Output then SetOutput(resources.channel, speed, resources.bandwidthOverhead)
                    else SetInput(resources.channel);
      err := ModifyRegister(change, succeedOnReset, responses);
    }

    method EstablishConnection(deviceSpeed: Speed, maxPayloadBytes: nat, rounds: Rounds) returns (err: int)
      modifies this, resources
      ensures (View(), err) ==
              Establish(old(View()), if maxSpeed < deviceSpeed then maxSpeed else deviceSpeed, maxPayloadBytes, rounds)
    {
      hide PcrModify, ReadBus, Modify;
      if connected {
        return EISCONN;
      }
      speed := if maxSpeed < deviceSpeed then maxSpeed else deviceSpeed;
      ghost var goal := EstablishRun(View(), maxPayloadBytes, rounds);
      var left := rounds;
      while true
        invariant !connected && EstablishRun(View(), maxPayloadBytes, left) == goal
        decreases |left|
      {
        err := resources.Allocate(maxPayloadBytes, speed, left[0].attempts);
        if err < 0 {
          return;
        }
        SetRegisterFacts(View(), false, left[0].responses);
        err := SetPlug(false, left[0].responses);
        if err == EAGAIN {
          var _ := resources.Free();
          left := left[1..];
        } else if err < 0 {
          var _ := resources.Free();
          return;
        } else {
          connected := true;
          return 0;
        }
      }
    }

    method UpdateConnection(generation: int, gapCount: nat, answer: Answer, responses: seq<Response<Register>>)
      returns (err: int)
      modifies this, resources
      ensures (View(), err) == Update(old(View()), generation, gapCount, answer, responses)
    {
      if !connected {
        return 0;
      }
      err := resources.Update(generation, gapCount, answer);
      if err < 0 {
        connected := false;
        return;
      }
      SetRegisterFacts(View(), true, responses);
      err := SetPlug(true, responses);
      if err < 0 {
        var _ := resources.Free();
        connected := false;
        return;
      }
      return 0;
    }

    method BreakOff(responses: seq<Response<Register>>)
      modifies this, resources
      ensures View() == Break(old(View()), responses)
    {
      if !connected {
        return;
      }
      var _ := ModifyRegister(BreakConnection, true, responses);
      var _ := resources.Free();
      connected := false;
    }
  }

  // ---------------------------------------------------------------------
  // Runs
  // ---------------------------------------------------------------------

  datatype Call =
    | EstablishCall(speed: Speed, maxPayloadBytes: nat, rounds: Rounds)
    | UpdateCall(generation: int, gapCount: nat, answer: Answer, responses: seq<Response<Register>>)
    | BreakCall(breakResponses: seq<Response<Register>>)

  function Step(c: Connection, call: Call): Connection {
    match call
    case EstablishCall(speed, maxPayloadBytes, rounds) => Establish(c, speed, maxPayloadBytes, rounds).0
    case UpdateCall(generation, gapCount, answer, responses) => Update(c, generation, gapCount, answer, responses).0
    case BreakCall(responses) => Break(c, responses)
  }

  function Run(c: Connection, calls: seq<Call>): Connection {
    if calls == [] then c else Step(Run(c, calls[..|calls| - 1]), calls[|calls| - 1])
  }

  /** A connection holds its resources and knows its register as in use. */
  predicate Safe(c: Connection) { c.connected ==> c.resources.isAllocated && InUse(c.last) }

  /** Resources that no later call gives back: nothing is established. */
  predicate Stuck(c: Connection) { c.resources.isAllocated && !c.connected }

  lemma SetRegisterFacts(c: Connection, succeedOnReset: bool, responses: seq<Response<Register>>)
    ensures var o := SetRegister(c, succeedOnReset, responses);
            (o.write.Write? ==> InUse(o.last) && o.err == 0) && (o.write.NoWrite? ==> o.last == c.last)
  {
    PcrModifyAtomic(Modifier(SetChange(c)), Checker(SetChange(c)), c.last, c.last, succeedOnReset, responses, 0);
    var o := SetRegister(c, succeedOnReset, responses);
    if o.write.Write? {
      ModifyMarks(SetChange(c), o.write.was);
    }
  }

  /** A finished call to allocate, and the resources it leaves. */
  lemma {:induction false} AllocateRunFacts(r: Resources, attempts: Attempts)
    requires !r.isAllocated
    ensures AllocateRun(r, attempts).0.isAllocated <==> AllocateRun(r, attempts).1 >= 0
    ensures AllocateRun(r, attempts).1 >= 0 ==> AllocateRun(r, attempts).1 == AllocateRun(r, attempts).0.channel
    decreases |attempts|
  {
    if !IsFinal(attempts[0]) {
      AllocateRunFacts(ReadBus(r, attempts[0].generation, attempts[0].gapCount), attempts[1..]);
    }
  }

  /** A call to establish either fails and holds nothing, or has in one step put
      the connection into a register that was free and on-line, or was the one
      this connection last wrote; the register then describes the connection,
      and nothing else in it has changed. */
  lemma {:induction false} Established(c: Connection, maxPayloadBytes: nat, rounds: Rounds)
    requires !c.connected && !c.resources.isAllocated
    ensures var (e, err) := EstablishRun(c, maxPayloadBytes, rounds);
            && err <= 0 && (err < 0 ==> !e.connected && !e.resources.isAllocated && e.last == c.last)
            && (err == 0 ==> e.connected && e.resources.isAllocated && e.speed == c.speed && e.direction == c.direction)
            && (err == 0 ==> exists round: nat, k: nat, was :: WroteAt(e, c.last, rounds, round, k, was))
    decreases |rounds|
  {
    hide Registered, PcrModify;
    AllocateRunFacts(c.resources.(bandwidth := PacketBandwidth(maxPayloadBytes, c.speed)), rounds[0].attempts);
    var (resources, result) := AllocateRun(c.resources.(bandwidth := PacketBandwidth(maxPayloadBytes, c.speed)),
                                           rounds[0].attempts);
    if result >= 0 {
      var tried := c.(resources := resources);
      var o := SetRegister(tried, false, rounds[0].responses);
      PcrModifyAtomic(Modifier(SetChange(tried)), Checker(SetChange(tried)), c.last, c.last, false,
                      rounds[0].responses, 0);
      if o.err == EAGAIN {
        Established(Freed(tried), maxPayloadBytes, rounds[1..]);
        var (e, err) := EstablishRun(Freed(tried), maxPayloadBytes, rounds[1..]);
        if err == 0 {
          var round: nat, k: nat, was :| WroteAt(e, c.last, rounds[1..], round, k, was);
          assert WroteAt(e, c.last, rounds, round + 1, k, was);
        }
      } else if o.err == 0 {
        var e := tried.(connected := true, last := o.last);
        SetRegisters(e, o.write.was);
        ModifyMarks(SetChange(tried), o.write.was);
        assert WroteAt(e, c.last, rounds, 0, o.write.at, o.write.was);
      }
    }
  }

  /** Request k changed the register from `was`. */
  ghost predicate WritesAt(c: Connection, cached: Register, responses: seq<Response<Register>>, k: nat, was: Register)
  {
    && k < |responses| && responses[k] == Answered(was)
    && (was == cached || (!InUse(was) && Online(was)))
    && Registered(c, c.last, was) && InUse(c.last)
  }

  ghost predicate WroteAt(c: Connection, cached: Register, rounds: seq<Round>, round: nat, k: nat, was: Register) {
    round < |rounds| && WritesAt(c, cached, rounds[round].responses, k, was)
  }

  /** After a bus reset the connection is put back, for the resources as they are then,
      in the same way; or another bus reset is left to the next update. An update
      that fails leaves no connection. */
  lemma Updated(c: Connection, generation: int, gapCount: nat, answer: Answer, responses: seq<Response<Register>>)
    requires c.connected && c.resources.isAllocated
    ensures var (u, err) := Update(c, generation, gapCount, answer, responses);
            && err <= 0 && (err < 0 ==> !u.connected && u.last == c.last)
            && u.speed == c.speed && u.direction == c.direction && u.resources.channel == c.resources.channel
            && u.resources.generation == generation
            && (err == 0 ==>
                  && u.connected && u.resources.isAllocated && answer.Granted?
                  && ((u.last == c.last && StaleGeneration in responses)
                      || exists k: nat, was :: WritesAt(u, c.last, responses, k, was)))
  {
    hide Registered, PcrModify;
    var updated := c.(resources := UpdateAnswer(ReadBus(c.resources, generation, gapCount), answer));
    if answer.Granted? {
      PcrModifyAtomic(Modifier(SetChange(updated)), Checker(SetChange(updated)), c.last, c.last, true, responses, 0);
      var o := SetRegister(updated, true, responses);
      if o.write.Write? {
        var u := updated.(last := o.last);
        SetRegisters(u, o.write.was);
        ModifyMarks(SetChange(updated), o.write.was);
        assert WritesAt(u, c.last, responses, o.write.at, o.write.was);
      }
    }
  }

  /** Calls that do not suit the connection's state change nothing. */
  lemma WrongStateIsKept(c: Connection, speed: Speed, maxPayloadBytes: nat, rounds: Rounds, generation: int,
                         gapCount: nat, answer: Answer, responses: seq<Response<Register>>)
    ensures c.connected ==> Establish(c, speed, maxPayloadBytes, rounds) == (c, -106)
    ensures !c.connected ==> Update(c, generation, gapCount, answer, responses) == (c, 0) && Break(c, responses) == c
  {
  }

  /** Bus resets are not reported: the call begins anew, until it has another result. */
  lemma {:induction false} ResetIsRetried(c: Connection, maxPayloadBytes: nat, rounds: Rounds)
    requires !c.resources.isAllocated
    ensures EstablishRun(c, maxPayloadBytes, rounds).1 != -11
    decreases |rounds|
  {
    hide PcrModify;
    var started := c.resources.(bandwidth := PacketBandwidth(maxPayloadBytes, c.speed));
    AllocateIsRetried(started, rounds[0].attempts);
    AllocateRunFacts(started, rounds[0].attempts);
    var (resources, result) := AllocateRun(started, rounds[0].attempts);
    if result >= 0 {
      var tried := c.(resources := resources);
      if SetRegister(tried, false, rounds[0].responses).err == EAGAIN {
        ResetIsRetried(Freed(tried), maxPayloadBytes, rounds[1..]);
      }
    }
  }

  lemma {:induction false} AllocateIsRetried(r: Resources, attempts: Attempts)
    ensures AllocateRun(r, attempts).1 != -11
    decreases |attempts|
  {
    if !IsFinal(attempts[0]) {
      AllocateIsRetried(ReadBus(r, attempts[0].generation, attempts[0].gapCount), attempts[1..]);
    }
  }

  /** Without disturbances a connection is established: the manager grants a channel at
      once, and the register is as this connection last saw it, or free and on-line. */
  lemma EstablishSucceeds(c: Connection, speed: Speed, maxPayloadBytes: nat, rounds: Rounds, pcr: Register)
    requires !c.connected && !c.resources.isAllocated
    requires var a := rounds[0].attempts[0]; !a.interrupted && a.answer.Granted?
    requires var answers := rounds[0].responses;
             || (|answers| >= 1 && answers[0] == Answered(pcr) && pcr == c.last)
             || (|answers| >= 2 && answers[0] == answers[1] == Answered(pcr) && !InUse(pcr) && Online(pcr))
    ensures var (e, err) := Establish(c, speed, maxPayloadBytes, rounds); var a := rounds[0].attempts[0];
            && err == 0 && e.connected && e.speed == speed && e.direction == c.direction
            && e.resources.isAllocated && e.resources.channel == a.answer.channel
            && e.resources.generation == a.generation
            && e.resources.bandwidth == PacketBandwidth(maxPayloadBytes, speed)
            && Registered(e, e.last, pcr)
  {
    hide Registered, Modify, InUse, Online, PcrModify;
    var o := c.(speed := speed);
    var tried := AllocateRun(o.resources.(bandwidth := PacketBandwidth(maxPayloadBytes, speed)), rounds[0].attempts).0;
    var e := o.(resources := tried);
    var transform, check := Modifier(SetChange(e)), Checker(SetChange(e));
    AnsweredRound(transform, check, c.last, c.last, false, rounds[0].responses, 0, pcr);
    if pcr != c.last {
      AnsweredRound(transform, check, c.last, pcr, false, rounds[0].responses, 1, pcr);
    }
    SetRegisters(e.(connected := true, last := Modify(SetChange(e), pcr)), pcr);
  }

  lemma StepKeepsSafe(c: Connection, call: Call)
    requires Safe(c)
    ensures Safe(Step(c, call))
    ensures Stuck(Step(c, call)) <==> Stuck(c) || GivesUp(c, call)
  {
    match call
    case EstablishCall(speed, maxPayloadBytes, rounds) =>
      if !c.connected && !c.resources.isAllocated {
        Established(c.(speed := speed), maxPayloadBytes, rounds);
      }
    case UpdateCall(generation, gapCount, answer, responses) =>
      if c.connected {
        SetRegisterFacts(c.(resources := UpdateAnswer(ReadBus(c.resources, generation, gapCount), answer)), true,
                         responses);
      }
    case BreakCall(responses) =>
  }

  /** An update of a live connection that another bus reset overtakes: the
      resource layer reports -EAGAIN and keeps the resources, to try again in
      the next update; the connection takes it for an error. */
  predicate GivesUp(c: Connection, call: Call) {
    c.connected && call.UpdateCall? && call.answer.Again?
  }

  /** In every reachable state a connection holds its resources. */
  lemma {:induction false} RunIsSafe(c: Connection, calls: seq<Call>)
    requires Safe(c)
    ensures Safe(Run(c, calls))
  {
    if calls != [] {
      RunIsSafe(c, calls[..|calls| - 1]);
      StepKeepsSafe(Run(c, calls[..|calls| - 1]), calls[|calls| - 1]);
    }
  }

  /** Resources are lost in exactly the runs in which an update was overtaken
      by a bus reset, whatever the calls after it. */
  lemma {:induction false} StuckIff(c: Connection, calls: seq<Call>)
    requires Safe(c) && !Stuck(c)
    ensures Stuck(Run(c, calls)) <==> exists i :: GaveUpAt(c, calls, i)
  {
    if calls != [] {
      var n := |calls| - 1;
      RunIsSafe(c, calls[..n]);
      StepKeepsSafe(Run(c, calls[..n]), calls[n]);
      StuckIff(c, calls[..n]);
      forall i ensures i != n ==> (GaveUpAt(c, calls, i) <==> GaveUpAt(c, calls[..n], i)) {
        if 0 <= i < n {
          assert calls[..n][..i] == calls[..i];
        }
      }
      assert GaveUpAt(c, calls, n) <==> GivesUp(Run(c, calls[..n]), calls[n]);
    }
  }

  predicate GaveUpAt(c: Connection, calls: seq<Call>, i: int) {
    0 <= i < |calls| && GivesUp(Run(c, calls[..i]), calls[i])
  }

  /** Once lost, the resources stay lost, and every attempt to establish fails. */
  lemma {:induction false} StuckForever(c: Connection, calls: seq<Call>, speed: Speed, maxPayloadBytes: nat,
                                        rounds: Rounds)
    requires Stuck(c)
    ensures Stuck(Run(c, calls))
    ensures Establish(Run(c, calls), speed, maxPayloadBytes, rounds).1 == EBADFD
  {
    if calls != [] {
      StuckForever(c, calls[..|calls| - 1], speed, maxPayloadBytes, rounds);
    }
  }

  /** What a lost answer does: the device has taken the connection, the repeated
      request finds the connection's own value, and the call fails with everything
      freed here, while the register describes a connection that nobody has. */
  lemma LostAnswerFails(c: Connection, maxPayloadBytes: nat, rounds: Rounds, resources: Resources, result: int)
    requires !c.connected && !c.resources.isAllocated && !InUse(c.last)
    requires (resources, result) == AllocateRun(c.resources.(bandwidth := PacketBandwidth(maxPayloadBytes, c.speed)),
                                                rounds[0].attempts)
    requires result >= 0 && |rounds[0].responses| >= 2 && rounds[0].responses[0] == AnswerLost(c.last)
    requires rounds[0].responses[1] == Answered(Modify(SetChange(c.(resources := resources)), c.last))
    ensures EstablishRun(c, maxPayloadBytes, rounds) == (Freed(c.(resources := resources)), EBUSY)
    ensures var r := Modify(SetChange(c.(resources := resources)), c.last);
            Registered(c.(resources := resources), r, c.last) && InUse(r)
  {
    hide Registered;
    SetRegisters(c.(resources := resources), c.last);
    ModifyMarks(SetChange(c.(resources := resources)), c.last);
    assert Transact(rounds[0].responses, 0, 0) == Transact(rounds[0].responses, 1, 1);
  }

  /** As long as the register stays so, every attempt to establish is refused, and
      without being established this connection is never broken. */
  lemma TakenPlugRefuses(c: Connection, maxPayloadBytes: nat, rounds: Rounds, pcr: Register)
    requires !c.connected && !c.resources.isAllocated && InUse(pcr) && pcr != c.last
    requires rounds[0].responses != [] && rounds[0].responses[0] == Answered(pcr)
    ensures var (e, err) := EstablishRun(c, maxPayloadBytes, rounds);
            err < 0 && !e.connected && !e.resources.isAllocated
  {
    AllocateRunFacts(c.resources.(bandwidth := PacketBandwidth(maxPayloadBytes, c.speed)), rounds[0].attempts);
  }

  /** A break is repeated with whatever value the register turns out to have. */
  lemma BreakSucceeds(c: Connection, responses: seq<Response<Register>>, pcr: Register)
    requires c.connected && |responses| >= 2 && responses[0] == responses[1] == Answered(pcr)
    ensures var r := Break(c, responses).last;
            P2pCount(r) == 0 && r & 0x4000_0000 == 0 && r & 0x80ff_ffff == pcr & 0x80ff_ffff
  {
    hide Modify, PcrModify;
    var transform, check := Modifier(BreakConnection), Checker(BreakConnection);
    AnsweredRound(transform, check, c.last, c.last, true, responses, 0, pcr);
    if pcr != c.last {
      AnsweredRound(transform, check, c.last, pcr, true, responses, 1, pcr);
    }
    ModifyDescribes(BreakConnection, pcr);
  }

  /** Breaking frees the resources in any case, and leaves a register that
      passes for free unless a bus reset or a failure kept it from being written. */
  lemma BreakReleases(c: Connection, responses: seq<Response<Register>>)
    requires Safe(c) && c.connected
    ensures !Break(c, responses).resources.isAllocated && !Break(c, responses).connected
    ensures var o := PcrModify(Modifier(BreakConnection), Checker(BreakConnection), c.last, c.last, true, responses, 0);
            InUse(Break(c, responses).last) <==> o.write.NoWrite?
  {
    PcrModifyAtomic(Modifier(BreakConnection), Checker(BreakConnection), c.last, c.last, true, responses, 0);
    var o := PcrModify(Modifier(BreakConnection), Checker(BreakConnection), c.last, c.last, true, responses, 0);
    if o.write.Write? {
      ModifyMarks(BreakConnection, o.write.was);
    }
  }
}
