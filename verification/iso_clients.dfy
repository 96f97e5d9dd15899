/** The objects of sound/firewire/iso-resources.c as clients on the bus: each call
    is a run of the client's own steps, between which the other clients, other
    nodes and bus resets do theirs. */
module IsoClients {
  import opened IsoResources
  import opened IsoBus

  /** A step of the bus, another node or another client. */
  predicate IsOther(s: Step, c: nat) { s.BusReset? || s.ForeignTake? || s.ForeignReturn? || s.c != c }

  predicate AreOthers(steps: seq<Step>, c: nat) { forall i :: 0 <= i < |steps| ==> IsOther(steps[i], c) }

  /** The object is client c, outside of any call. */
  ghost predicate IsClient(x: FwIsoResources, b: Bus, c: nat)
    reads x
  {
    c < |b.clients| && b.clients[c].phase.Idle? && b.clients[c].r == x.View()
  }

  /** What others do changes neither a client's fields nor its place in a call. */
  lemma {:induction false} OthersLeave(b: Bus, steps: seq<Step>, c: nat)
    requires c < |b.clients| && IsRun(b, steps) && AreOthers(steps, c)
    ensures var e := Final(b, steps);
            c < |e.clients| && e.clients[c].r == b.clients[c].r && e.clients[c].phase == b.clients[c].phase
    decreases |steps|
  {
    if steps != [] {
      assert IsOther(steps[0], c);
      OthersLeave(Next(b, steps[0]), steps[1..], c);
    }
  }

  // ---------------------------------------------------------------------
  // Update and free
  // ---------------------------------------------------------------------

  /** fw_iso_resources_update on the bus, with others' steps between its look at the
      generation and the manager's answer. */
  method UpdateOn(x: FwIsoResources, ghost b: Bus, ghost c: nat, generation: int, gapCount: nat,
                  ghost between: seq<Step>, answer: Answer)
    returns (result: int, ghost after: Bus)
    requires IsClient(x, b, c) && generation == b.generation && gapCount == b.gapCount
    requires x.isAllocated ==>
               && IsRun(Next(b, UpdateBegin(c)), between) && AreOthers(between, c)
               && Enabled(Final(Next(b, UpdateBegin(c)), between), UpdateEnd(c, answer))
    modifies x
    ensures after == if old(x.isAllocated)
                     then Next(Final(Next(b, UpdateBegin(c)), between), UpdateEnd(c, answer))
                     else Next(b, UpdateBegin(c))
    ensures IsClient(x, after, c)
  {
    after := Next(b, UpdateBegin(c));
    if x.isAllocated {
      OthersLeave(after, between, c);
      after := Next(Final(after, between), UpdateEnd(c, answer));
    }
    result := x.Update(generation, gapCount, answer);
  }

  /** fw_iso_resources_free on the bus: the manager takes back what the object asks
      it to, if it is asked in its generation and the request gets through. */
  method FreeOn(x: FwIsoResources, ghost b: Bus, ghost c: nat, ghost failed: bool)
    returns (returned: seq<Return>, ghost after: Bus)
    requires IsClient(x, b, c)
    modifies x
    ensures after == Next(b, Free(c, failed)) && IsClient(x, after, c)
    ensures var taken := returned != [] && returned[0].generation == b.generation && !failed;
            && after.available == b.available + (if taken then returned[0].amount else 0)
            && after.free == b.free + (if taken then {returned[0].channel} else {})
  {
    after := Next(b, Free(c, failed));
    returned := x.Free();
    assert b.free + {} == b.free;
  }

  // ---------------------------------------------------------------------
  // Allocate
  // ---------------------------------------------------------------------

  /** What others do in one round of the loop: before the look at the generation,
      and between that and the manager's answer. */
  datatype Round = Round(before: seq<Step>, between: seq<Step>)

  /** The bus as client c has looked at the generation in a round. */
  ghost function Looked(b: Bus, c: nat, round: Round): (r: Bus)
    requires c < |b.clients| && b.clients[c].phase.MustRead? && IsRun(b, round.before) && AreOthers(round.before, c)
    ensures c < |r.clients| && r.clients[c].phase.Allocating?
    ensures var shown := Final(b, round.before);
            r.clients[c].r == ReadBus(b.clients[c].r, shown.generation, shown.gapCount)
  {
    OthersLeave(b, round.before, c);
    Next(Final(b, round.before), AllocateRead(c))
  }

  /** The attempts are what the bus shows and answers in the rounds. */
  ghost predicate ArePlayed(b: Bus, c: nat, rounds: seq<Round>, attempts: Attempts)
    requires c < |b.clients| && b.clients[c].phase.MustRead?
    decreases |attempts|
  {
    && rounds != []
    && var round, a := rounds[0], attempts[0];
    && IsRun(b, round.before) && AreOthers(round.before, c)
    && a.generation == Final(b, round.before).generation && a.gapCount == Final(b, round.before).gapCount
    && (!a.interrupted ==>
          && IsRun(Looked(b, c, round), round.between) && AreOthers(round.between, c)
          && var asked := Asked(b, c, round);
          && Enabled(asked, AllocateEnd(c, a.answer))
          && (a.answer.Again? ==> ArePlayed(Next(asked, AllocateEnd(c, a.answer)), c, rounds[1..], attempts[1..])))
  }

  /** The bus as the manager answers in a round. */
  ghost function Asked(b: Bus, c: nat, round: Round): (r: Bus)
    requires c < |b.clients| && b.clients[c].phase.MustRead? && IsRun(b, round.before) && AreOthers(round.before, c)
    requires IsRun(Looked(b, c, round), round.between) && AreOthers(round.between, c)
    ensures c < |r.clients| && r.clients[c].phase.Allocating? && r.clients[c].r == Looked(b, c, round).clients[c].r
  {
    OthersLeave(Looked(b, c, round), round.between, c);
    Final(Looked(b, c, round), round.between)
  }

  /** The bus behind the call. */
  ghost function Played(b: Bus, c: nat, rounds: seq<Round>, attempts: Attempts): Bus
    requires c < |b.clients| && b.clients[c].phase.MustRead? && ArePlayed(b, c, rounds, attempts)
    decreases |attempts|
  {
    var round, a := rounds[0], attempts[0];
    if a.interrupted then Next(Looked(b, c, round), AllocateInterrupted(c))
    else
      var answered := Next(Asked(b, c, round), AllocateEnd(c, a.answer));
      if a.answer.Again? then Played(answered, c, rounds[1..], attempts[1..]) else answered
  }

  /** Client c then has the fields that the attempts give. */
  lemma {:induction false} PlayedIsRun(b: Bus, c: nat, rounds: seq<Round>, attempts: Attempts)
    requires c < |b.clients| && b.clients[c].phase.MustRead? && ArePlayed(b, c, rounds, attempts)
    ensures var after := Played(b, c, rounds, attempts);
            && c < |after.clients| && after.clients[c].phase.Idle?
            && after.clients[c].r == AllocateRun(b.clients[c].r, attempts).0
    decreases |attempts|
  {
    var round, a := rounds[0], attempts[0];
    if !a.interrupted && a.answer.Again? {
      PlayedIsRun(Next(Asked(b, c, round), AllocateEnd(c, a.answer)), c, rounds[1..], attempts[1..]);
    }
  }

  lemma LookedKeeps(b: Bus, c: nat, round: Round)
    requires c < |b.clients| && b.clients[c].phase.MustRead? && IsRun(b, round.before) && AreOthers(round.before, c)
    requires Inv(b)
    ensures Inv(Looked(b, c, round))
  {
    OthersLeave(b, round.before, c);
    RunInv(b, round.before);
    StepKeeps(Final(b, round.before), AllocateRead(c));
  }

  /** The manager's answer, in the client's fields and in its charge. */
  lemma AnswerIs(asked: Bus, c: nat, answer: Answer)
    requires Enabled(asked, AllocateEnd(c, answer)) && Inv(asked)
    ensures var next := Next(asked, AllocateEnd(c, answer));
            && Inv(next) && c < |next.clients|
            && next.clients[c].r == AllocateAnswer(asked.clients[c].r, answer)
            && next.clients[c].phase == (if answer.Again? then MustRead else Idle)
            && (answer.Granted? ==> next.clients[c].charge == Charge(answer.channel, Amount(next.clients[c].r)))
  {
    StepKeeps(asked, AllocateEnd(c, answer));
    hide Inv;
  }

  /** A whole call keeps the manager's account complete; and if it succeeds, the
      object holds what the manager has charged it. */
  lemma {:induction false} PlayedKeeps(b: Bus, c: nat, rounds: seq<Round>, attempts: Attempts)
    requires Inv(b) && c < |b.clients| && b.clients[c].phase.MustRead? && ArePlayed(b, c, rounds, attempts)
    ensures var after := Played(b, c, rounds, attempts);
            && Inv(after)
            && (AllocateRun(b.clients[c].r, attempts).1 >= 0 ==>
                  && c < |after.clients|
                  && after.clients[c].charge == Charge(after.clients[c].r.channel, Amount(after.clients[c].r)))
    decreases |attempts|
  {
    hide Inv, Next, IsRun, MayAnswer;
    var round, a := rounds[0], attempts[0];
    LookedKeeps(b, c, round);
    var looked := Looked(b, c, round);
    if a.interrupted {
      StepKeeps(looked, AllocateInterrupted(c));
    } else {
      RunInv(looked, round.between);
      var asked := Asked(b, c, round);
      AnswerIs(asked, c, a.answer);
      if a.answer.Again? {
        PlayedKeeps(Next(asked, AllocateEnd(c, a.answer)), c, rounds[1..], attempts[1..]);
      }
    }
  }

  /** fw_iso_resources_allocate on the bus, with any number of bus resets and of
      others' steps during the call. */
  method AllocateOn(x: FwIsoResources, ghost b: Bus, ghost c: nat, maxPayloadBytes: nat, speed: Speed,
                    ghost rounds: seq<Round>, attempts: Attempts)
    returns (result: int, ghost after: Bus)
    requires IsClient(x, b, c)
    requires !x.isAllocated ==>
               ArePlayed(Next(b, AllocateBegin(c, PacketBandwidth(maxPayloadBytes, speed))), c, rounds, attempts)
    modifies x
    ensures old(x.isAllocated) ==> after == b
    ensures !old(x.isAllocated) ==>
              after == Played(Next(b, AllocateBegin(c, PacketBandwidth(maxPayloadBytes, speed))), c, rounds, attempts)
    ensures IsClient(x, after, c)
    ensures Inv(b) ==> Inv(after)
    ensures Inv(b) && !old(x.isAllocated) && result >= 0 ==>
              after.clients[c].charge == Charge(x.channel, Amount(x.View()))
  {
    after := b;
    if !x.isAllocated {
      ghost var begun := Next(b, AllocateBegin(c, PacketBandwidth(maxPayloadBytes, speed)));
      PlayedIsRun(begun, c, rounds, attempts);
      after := Played(begun, c, rounds, attempts);
      if Inv(b) {
        StepKeeps(b, AllocateBegin(c, PacketBandwidth(maxPayloadBytes, speed)));
        PlayedKeeps(begun, c, rounds, attempts);
      }
    }
    hide Inv, Played, ArePlayed;
    result := x.Allocate(maxPayloadBytes, speed, attempts);
  }
}
