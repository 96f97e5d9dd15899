/** The isochronous resource manager of a bus and the clients that use
    fw_iso_resources on it (sound/firewire/iso-resources.c): every interleaving
    of their atomic steps with bus resets. */
module IsoBus {
  import opened IsoResources

  const BANDWIDTH_AVAILABLE_INITIAL := 4915
  const ALL_CHANNELS: set<nat> := set c: nat | c < 64

  /** Where a client stands: about to read the generation in allocate, between
      reading it and the bus transaction in allocate or in update, or outside.
      An update is repeated if the client's resources were already those of the
      bus's generation when it was called. */
  datatype Phase = Idle | MustRead | Allocating | Updating(repeated: bool)

  /** What the manager has handed out to a client in the current generation. */
  datatype Charge = NoCharge | Charge(channel: nat, amount: nat)

  /** A client with the manager's account of it. */
  datatype Client = Client(r: Resources, phase: Phase, charge: Charge)

  /** The bus: generation, gap count, the manager's registers, and the parts of
      them held by other nodes (foreign) and by nobody any more (orphaned). */
  datatype Bus = Bus(generation: int, gapCount: nat, available: int, free: set<nat>,
                     foreign: nat, foreignChannels: set<nat>, orphaned: nat, orphanedChannels: set<nat>,
                     clients: seq<Client>)

  datatype Step =
    | BusReset(gapCount: nat)
    | AllocateBegin(c: nat, bandwidth: nat)
    | AllocateRead(c: nat)
    | AllocateInterrupted(c: nat)
    | AllocateEnd(c: nat, answer: Answer)
    | UpdateBegin(c: nat)
    | UpdateEnd(c: nat, answer: Answer)
    | Free(c: nat, failed: bool)
    | ForeignTake(channel: nat, amount: nat)
    | ForeignReturn(channel: nat, amount: nat)

  /** Contract of fw_iso_resource_manage when allocating from `mask`. */
  ghost predicate MayAnswer(b: Bus, generation: int, mask: set<nat>, amount: nat, a: Answer) {
    match a
    case Again => generation != b.generation
    case Granted(channel) => generation == b.generation && channel in mask && channel in b.free && amount <= b.available
    case Busy => generation == b.generation && (mask * b.free == {} || amount > b.available)
    case IoError => generation == b.generation
  }

  ghost predicate Enabled(b: Bus, s: Step) {
    match s
    case BusReset(_) => true
    case AllocateBegin(c, _) => c < |b.clients| && b.clients[c].phase.Idle? && !b.clients[c].r.isAllocated
    case AllocateRead(c) => c < |b.clients| && b.clients[c].phase.MustRead?
    case AllocateInterrupted(c) => c < |b.clients| && b.clients[c].phase.Allocating?
    case AllocateEnd(c, a) =>
      && c < |b.clients| && b.clients[c].phase.Allocating?
      && MayAnswer(b, b.clients[c].r.generation, b.clients[c].r.channelsMask, Amount(b.clients[c].r), a)
    case UpdateBegin(c) => c < |b.clients| && b.clients[c].phase.Idle?
    case UpdateEnd(c, a) =>
      && c < |b.clients| && b.clients[c].phase.Updating?
      && MayAnswer(b, b.clients[c].r.generation, {b.clients[c].r.channel}, Amount(b.clients[c].r), a)
    case Free(c, _) => c < |b.clients| && b.clients[c].phase.Idle?
    case ForeignTake(channel, amount) => channel in b.free && amount <= b.available
    case ForeignReturn(channel, amount) => channel in b.foreignChannels && amount <= b.foreign
  }

  /** The client's resources are those of the bus's generation, by its own fields. */
  predicate IsCurrent(b: Bus, x: Client) { x.r.isAllocated && x.r.generation == b.generation }

  function SetClient(b: Bus, c: nat, x: Client): Bus
    requires c < |b.clients|
  {
    b.(clients := b.clients[c := x])
  }

  /** The manager hands out a channel and bandwidth to client c. */
  function Grant(b: Bus, c: nat, x: Client, channel: nat): Bus
    requires c < |b.clients|
  {
    SetClient(b, c, x.(charge := Charge(channel, Amount(x.r))))
      .(available := b.available - Amount(x.r), free := b.free - {channel})
  }

  /** A charge that its client gives up without telling the manager. */
  function Orphan(b: Bus, c: nat, x: Client): Bus
    requires c < |b.clients|
  {
    if x.charge.NoCharge? then SetClient(b, c, x)
    else
      SetClient(b, c, x.(charge := NoCharge))
        .(orphaned := b.orphaned + x.charge.amount, orphanedChannels := b.orphanedChannels + {x.charge.channel})
  }

  function ResetClients(clients: seq<Client>): (r: seq<Client>)
    ensures |r| == |clients| && forall i :: 0 <= i < |clients| ==> r[i] == clients[i].(charge := NoCharge)
  {
    seq(|clients|, i requires 0 <= i < |clients| => clients[i].(charge := NoCharge))
  }

  /** The step itself. Free asks the manager to take back what the client's own
      fields say; the manager does so if the generation is current. */
  ghost function Next(b: Bus, s: Step): Bus
    requires Enabled(b, s)
  {
    match s
    case BusReset(gap) =>
      Bus(b.generation + 1, gap, BANDWIDTH_AVAILABLE_INITIAL, ALL_CHANNELS, 0, {}, 0, {}, ResetClients(b.clients))
    case AllocateBegin(c, bandwidth) =>
      var x := b.clients[c];
      SetClient(b, c, x.(r := x.r.(bandwidth := bandwidth), phase := MustRead))
    case AllocateRead(c) =>
      var x := b.clients[c];
      SetClient(b, c, x.(r := ReadBus(x.r, b.generation, b.gapCount), phase := Allocating))
    case AllocateInterrupted(c) =>
      SetClient(b, c, b.clients[c].(phase := Idle))
    case AllocateEnd(c, a) =>
      var x := b.clients[c];
      var y := x.(r := AllocateAnswer(x.r, a), phase := if a.Again? then MustRead else Idle);
      if a.Granted? then Grant(b, c, y, a.channel) else SetClient(b, c, y)
    case UpdateBegin(c) =>
      var x := b.clients[c];
      if !x.r.isAllocated then b
      else SetClient(b, c, x.(r := ReadBus(x.r, b.generation, b.gapCount), phase := Updating(IsCurrent(b, x))))
    case UpdateEnd(c, a) =>
      var x := b.clients[c];
      var y := x.(r := UpdateAnswer(x.r, a), phase := Idle);
      if a.Granted? then Grant(b, c, y, a.channel)
      else if !y.r.isAllocated then Orphan(b, c, y)
      else SetClient(b, c, y)
    case Free(c, failed) =>
      var x := b.clients[c];
      var y := x.(r := x.r.(isAllocated := false));
      if !x.r.isAllocated || x.r.generation != b.generation then SetClient(b, c, y)
      else if failed then Orphan(b, c, y)
      else
        SetClient(b, c, y.(charge := NoCharge))
          .(available := b.available + Amount(x.r), free := b.free + {x.r.channel})
    case ForeignTake(channel, amount) =>
      b.(available := b.available - amount, free := b.free - {channel},
         foreign := b.foreign + amount, foreignChannels := b.foreignChannels + {channel})
    case ForeignReturn(channel, amount) =>
      b.(available := b.available + amount, free := b.free + {channel},
         foreign := b.foreign - amount, foreignChannels := b.foreignChannels - {channel})
  }

  // ---------------------------------------------------------------------
  // Invariant
  // ---------------------------------------------------------------------

  function ChargesOf(clients: seq<Client>): (r: seq<Charge>)
    ensures |r| == |clients| && forall i :: 0 <= i < |clients| ==> r[i] == clients[i].charge
  {
    seq(|clients|, i requires 0 <= i < |clients| => clients[i].charge)
  }

  function ChargeAmount(c: Charge): nat { if c.NoCharge? then 0 else c.amount }

  /** Sum of the first n charges. */
  function Charged(charges: seq<Charge>, n: nat): nat
    requires n <= |charges|
  {
    if n == 0 then 0 else Charged(charges, n - 1) + ChargeAmount(charges[n - 1])
  }

  /** Bandwidth and channels that all clients hold together with the rest of
      the bus are those of a whole bus, nothing twice and nothing missing. */
  ghost predicate Conserved(b: Bus) {
    b.available >= 0 &&
    b.available + Charged(ChargesOf(b.clients), |b.clients|) + b.foreign + b.orphaned == 4915
  }

  ghost predicate Holds(charges: seq<Charge>, i: nat, channel: nat) {
    i < |charges| && charges[i].Charge? && charges[i].channel == channel
  }

  ghost predicate Partitioned(free: set<nat>, foreign: set<nat>, orphaned: set<nat>, charges: seq<Charge>) {
    && free !! foreign && (free + foreign) !! orphaned && free + foreign + orphaned <= ALL_CHANNELS
    && (forall i, channel :: Holds(charges, i, channel) ==>
          channel in ALL_CHANNELS && channel !in free + foreign + orphaned)
    && (forall i, j, channel :: Holds(charges, i, channel) && Holds(charges, j, channel) ==> i == j)
    && (forall channel :: channel in ALL_CHANNELS && channel !in free + foreign + orphaned ==>
          exists i :: Holds(charges, i, channel))
  }

  /** A charge is always what its client remembers, for the current generation;
      and an idle client with current resources is charged. */
  ghost predicate AccountOk(b: Bus, x: Client) {
    && x.r.generation <= b.generation
    && (x.charge.Charge? ==>
          && x.r.isAllocated && x.r.generation == b.generation
          && x.charge == Charge(x.r.channel, Amount(x.r))
          && x.r.overhead == BandwidthOverhead(b.gapCount))
    && (x.r.isAllocated && x.phase.Idle? && x.r.generation == b.generation ==> x.charge.Charge?)
    && (x.phase.MustRead? || x.phase.Allocating? ==> !x.r.isAllocated)
    && (x.phase.Updating? ==> x.r.isAllocated)
    && (x.phase.Updating? && x.r.generation == b.generation ==> (x.charge.Charge? <==> x.phase.repeated))
    && ((x.phase.Allocating? || x.phase.Updating?) && x.r.generation == b.generation ==>
        x.r.overhead == BandwidthOverhead(b.gapCount))
  }

  ghost predicate Inv(b: Bus) {
    && Conserved(b)
    && Partitioned(b.free, b.foreignChannels, b.orphanedChannels, ChargesOf(b.clients))
    && forall i :: 0 <= i < |b.clients| ==> AccountOk(b, b.clients[i])
  }

  // ---------------------------------------------------------------------
  // Every step keeps it
  // ---------------------------------------------------------------------

  lemma {:induction false} ChargedUpdate(charges: seq<Charge>, c: nat, x: Charge, n: nat)
    requires c < |charges| && n <= |charges|
    ensures Charged(charges[c := x], n) ==
            Charged(charges, n) + if c < n then ChargeAmount(x) - ChargeAmount(charges[c]) else 0
  {
    if n > 0 {
      ChargedUpdate(charges, c, x, n - 1);
    }
  }

  lemma {:induction false} ChargedNothing(charges: seq<Charge>, n: nat)
    requires n <= |charges| && forall i :: 0 <= i < n ==> charges[i].NoCharge?
    ensures Charged(charges, n) == 0
  {
    if n > 0 {
      ChargedNothing(charges, n - 1);
    }
  }

  lemma SetClientCharges(b: Bus, c: nat, x: Client)
    requires c < |b.clients|
    ensures ChargesOf(b.clients[c := x]) == ChargesOf(b.clients)[c := x.charge]
    ensures Charged(ChargesOf(b.clients[c := x]), |b.clients|) ==
            Charged(ChargesOf(b.clients), |b.clients|) + ChargeAmount(x.charge) - ChargeAmount(b.clients[c].charge)
  {
    ChargedUpdate(ChargesOf(b.clients), c, x.charge, |b.clients|);
  }

  /** A channel goes to a client that holds none. */
  lemma PartitionGrant(free: set<nat>, foreign: set<nat>, orphaned: set<nat>, charges: seq<Charge>, c: nat,
                       channel: nat, amount: nat)
    requires Partitioned(free, foreign, orphaned, charges) && c < |charges| && charges[c].NoCharge? && channel in free
    ensures Partitioned(free - {channel}, foreign, orphaned, charges[c := Charge(channel, amount)])
  {
    var charges' := charges[c := Charge(channel, amount)];
    forall i, ch
      ensures Holds(charges', i, ch) <==> Holds(charges, i, ch) || (i == c && ch == channel)
    {
    }
    assert Holds(charges', c, channel);
  }

  /** A client's channel leaves it, to the free or to the orphaned ones. */
  lemma PartitionRelease(free: set<nat>, foreign: set<nat>, orphaned: set<nat>, charges: seq<Charge>, c: nat)
    requires Partitioned(free, foreign, orphaned, charges) && c < |charges| && charges[c].Charge?
    ensures Partitioned(free + {charges[c].channel}, foreign, orphaned, charges[c := NoCharge])
    ensures Partitioned(free, foreign, orphaned + {charges[c].channel}, charges[c := NoCharge])
  {
    var charges' := charges[c := NoCharge];
    forall i, ch
      ensures Holds(charges', i, ch) <==> Holds(charges, i, ch) && i != c
    {
    }
    assert Holds(charges, c, charges[c].channel);
  }

  lemma PartitionSame(free: set<nat>, foreign: set<nat>, orphaned: set<nat>, charges: seq<Charge>, channel: nat)
    requires Partitioned(free, foreign, orphaned, charges)
    ensures channel in free ==> Partitioned(free - {channel}, foreign + {channel}, orphaned, charges)
    ensures channel in foreign ==> Partitioned(free + {channel}, foreign - {channel}, orphaned, charges)
  {
    var used := free + foreign + orphaned;
    if channel in free {
      assert (free - {channel}) + (foreign + {channel}) + orphaned == used;
    }
    if channel in foreign {
      assert (free + {channel}) + (foreign - {channel}) + orphaned == used;
    }
  }

  lemma ResetKeeps(b: Bus, gapCount: nat)
    requires Inv(b)
    ensures Inv(Next(b, BusReset(gapCount)))
  {
    var b' := Next(b, BusReset(gapCount));
    ChargedNothing(ChargesOf(b'.clients), |b'.clients|);
    forall i, channel
      ensures !Holds(ChargesOf(b'.clients), i, channel)
    {
    }
    forall i | 0 <= i < |b'.clients|
      ensures AccountOk(b', b'.clients[i])
    {
      assert AccountOk(b, b.clients[i]);
    }
  }

  /** Steps that change one client but no charge and no register. */
  lemma SetClientKeeps(b: Bus, c: nat, x: Client)
    requires Inv(b) && c < |b.clients| && x.charge == b.clients[c].charge && AccountOk(b, x)
    ensures Inv(SetClient(b, c, x))
  {
    SetClientCharges(b, c, x);
    assert ChargesOf(b.clients)[c := x.charge] == ChargesOf(b.clients);
  }

  lemma GrantKeeps(b: Bus, c: nat, x: Client, channel: nat)
    requires Inv(b) && c < |b.clients| && b.clients[c].charge.NoCharge? && channel in b.free
             && Amount(x.r) <= b.available
    requires AccountOk(b, x.(charge := Charge(channel, Amount(x.r))))
    ensures Inv(Grant(b, c, x, channel))
  {
    var y := x.(charge := Charge(channel, Amount(x.r)));
    SetClientCharges(b, c, y);
    PartitionGrant(b.free, b.foreignChannels, b.orphanedChannels, ChargesOf(b.clients), c, channel, Amount(x.r));
  }

  lemma OrphanKeeps(b: Bus, c: nat, x: Client)
    requires Inv(b) && c < |b.clients| && x.charge == b.clients[c].charge && AccountOk(b, x.(charge := NoCharge))
    ensures Inv(Orphan(b, c, x))
  {
    SetClientCharges(b, c, x.(charge := NoCharge));
    if x.charge.Charge? {
      PartitionRelease(b.free, b.foreignChannels, b.orphanedChannels, ChargesOf(b.clients), c);
    } else {
      SetClientKeeps(b, c, x);
    }
  }

  lemma FreeKeeps(b: Bus, c: nat, failed: bool)
    requires Inv(b) && Enabled(b, Free(c, failed))
    ensures Inv(Next(b, Free(c, failed)))
  {
    var x := b.clients[c];
    var y := x.(r := x.r.(isAllocated := false));
    if !x.r.isAllocated || x.r.generation != b.generation {
      SetClientKeeps(b, c, y);
    } else if failed {
      OrphanKeeps(b, c, y);
    } else {
      SetClientCharges(b, c, y.(charge := NoCharge));
      PartitionRelease(b.free, b.foreignChannels, b.orphanedChannels, ChargesOf(b.clients), c);
    }
  }

  lemma UpdateEndKeeps(b: Bus, c: nat, a: Answer)
    requires Inv(b) && Enabled(b, UpdateEnd(c, a))
    ensures Inv(Next(b, UpdateEnd(c, a)))
  {
    var x := b.clients[c];
    var y := x.(r := UpdateAnswer(x.r, a), phase := Idle);
    if a.Granted? {
      if x.charge.Charge? {
        assert Holds(ChargesOf(b.clients), c, a.channel);
      }
      GrantKeeps(b, c, y, a.channel);
    } else if !y.r.isAllocated {
      OrphanKeeps(b, c, y);
    } else {
      SetClientKeeps(b, c, y);
    }
  }

  /** Every step of every interleaving keeps the invariant. */
  lemma StepKeeps(b: Bus, s: Step)
    requires Inv(b) && Enabled(b, s)
    ensures Inv(Next(b, s))
  {
    match s
    case BusReset(gap) => ResetKeeps(b, gap);
    case AllocateBegin(c, bandwidth) =>
      var x := b.clients[c];
      SetClientKeeps(b, c, x.(r := x.r.(bandwidth := bandwidth), phase := MustRead));
    case AllocateRead(c) =>
      var x := b.clients[c];
      SetClientKeeps(b, c, x.(r := ReadBus(x.r, b.generation, b.gapCount), phase := Allocating));
    case AllocateInterrupted(c) => SetClientKeeps(b, c, b.clients[c].(phase := Idle));
    case AllocateEnd(c, a) =>
      var x := b.clients[c];
      var y := x.(r := AllocateAnswer(x.r, a), phase := if a.Again? then MustRead else Idle);
      if a.Granted? {
        GrantKeeps(b, c, y, a.channel);
      } else {
        SetClientKeeps(b, c, y);
      }
    case UpdateBegin(c) =>
      var x := b.clients[c];
      if x.r.isAllocated {
        SetClientKeeps(b, c, x.(r := ReadBus(x.r, b.generation, b.gapCount), phase := Updating(IsCurrent(b, x))));
      }
    case UpdateEnd(c, a) => UpdateEndKeeps(b, c, a);
    case Free(c, failed) => FreeKeeps(b, c, failed);
    case ForeignTake(channel, _) =>
      PartitionSame(b.free, b.foreignChannels, b.orphanedChannels, ChargesOf(b.clients), channel);
    case ForeignReturn(channel, _) =>
      PartitionSame(b.free, b.foreignChannels, b.orphanedChannels, ChargesOf(b.clients), channel);
  }

  // ---------------------------------------------------------------------
  // Whole runs
  // ---------------------------------------------------------------------

  /** A bus on which nothing has been allocated yet. */
  ghost predicate IsFresh(b: Bus) {
    && b.available == BANDWIDTH_AVAILABLE_INITIAL && b.free == ALL_CHANNELS
    && b.foreign == b.orphaned == 0 && b.foreignChannels == b.orphanedChannels == {}
    && forall i :: 0 <= i < |b.clients| ==>
         var x := b.clients[i];
         x.phase.Idle? && x.charge.NoCharge? && !x.r.isAllocated && x.r.generation <= b.generation
  }

  ghost predicate IsRun(b: Bus, steps: seq<Step>)
    decreases |steps|
  {
    steps == [] || (Enabled(b, steps[0]) && IsRun(Next(b, steps[0]), steps[1..]))
  }

  ghost function Final(b: Bus, steps: seq<Step>): Bus
    requires IsRun(b, steps)
    decreases |steps|
  {
    if steps == [] then b else Final(Next(b, steps[0]), steps[1..])
  }

  lemma FreshInv(b: Bus)
    requires IsFresh(b)
    ensures Inv(b)
  {
    ChargedNothing(ChargesOf(b.clients), |b.clients|);
    forall i, channel
      ensures !Holds(ChargesOf(b.clients), i, channel)
    {
    }
  }

  lemma {:induction false} RunInv(b: Bus, steps: seq<Step>)
    requires Inv(b) && IsRun(b, steps)
    ensures Inv(Final(b, steps))
    decreases |steps|
  {
    if steps != [] {
      StepKeeps(b, steps[0]);
      RunInv(Next(b, steps[0]), steps[1..]);
    }
  }

  /** After every interleaving of any number of clients: the manager's account
      is complete, every channel has exactly one owner, and each charge is what
      its client would give back. */
  lemma Conservation(b: Bus, steps: seq<Step>)
    requires IsFresh(b) && IsRun(b, steps)
    ensures var e := Final(b, steps);
            && e.available + Charged(ChargesOf(e.clients), |e.clients|) + e.foreign + e.orphaned
               == BANDWIDTH_AVAILABLE_INITIAL
            && e.available >= 0
            && (forall i, j ::
                  0 <= i < j < |e.clients| && e.clients[i].charge.Charge? && e.clients[j].charge.Charge? ==>
                    e.clients[i].charge.channel != e.clients[j].charge.channel)
            && (forall i :: 0 <= i < |e.clients| && e.clients[i].charge.Charge? ==>
                  var x := e.clients[i];
                  && x.charge == Charge(x.r.channel, Amount(x.r))
                  && x.charge.channel !in e.free + e.foreignChannels + e.orphanedChannels)
  {
    FreshInv(b);
    RunInv(b, steps);
    var e := Final(b, steps);
    var charges := ChargesOf(e.clients);
    forall i | 0 <= i < |e.clients| && e.clients[i].charge.Charge?
      ensures Holds(charges, i, e.clients[i].charge.channel)
    {
    }
    forall i, j | 0 <= i < j < |e.clients| && e.clients[i].charge.Charge? && e.clients[j].charge.Charge?
      ensures e.clients[i].charge.channel != e.clients[j].charge.channel
    {
      assert Holds(charges, i, e.clients[i].charge.channel) && Holds(charges, j, e.clients[j].charge.channel);
    }
  }

  lemma StepKeepsChannel(b: Bus, s: Step, c: nat)
    requires Inv(b) && Enabled(b, s) && c < |b.clients|
    requires b.clients[c].r.isAllocated && Next(b, s).clients[c].r.isAllocated
    ensures Next(b, s).clients[c].r.channel == b.clients[c].r.channel
    ensures Next(b, s).clients[c].r.bandwidth == b.clients[c].r.bandwidth
  {
    hide MayAnswer;
    assert AccountOk(b, b.clients[c]);
  }

  /** The client holds its resources at every moment of the run. */
  ghost predicate StaysAllocated(b: Bus, steps: seq<Step>, c: nat)
    requires IsRun(b, steps)
    decreases |steps|
  {
    && c < |b.clients| && b.clients[c].r.isAllocated
    && (steps != [] ==> StaysAllocated(Next(b, steps[0]), steps[1..], c))
  }

  /** However many resets, updates and other clients' steps a run has: while a
      client is allocated, its channel and its bandwidth stay the same. */
  lemma {:induction false} ChannelNeverChanges(b: Bus, steps: seq<Step>, c: nat)
    requires Inv(b) && IsRun(b, steps) && StaysAllocated(b, steps, c)
    ensures var e := Final(b, steps);
            && c < |e.clients| && e.clients[c].r.isAllocated
            && e.clients[c].r.channel == b.clients[c].r.channel && e.clients[c].r.bandwidth == b.clients[c].r.bandwidth
    decreases |steps|
  {
    if steps != [] {
      StepKeeps(b, steps[0]);
      StepKeepsChannel(b, steps[0], c);
      hide Next, Inv, Enabled;
      ChannelNeverChanges(Next(b, steps[0]), steps[1..], c);
    }
  }

  /** The manager of the current generation grants a channel or is busy, depending on
      what is free; only a stale request is told to come again. */
  lemma ManagerAnswers(b: Bus, generation: int, mask: set<nat>, amount: nat)
    requires forall c :: c in b.free ==> c < 64
    ensures generation == b.generation ==>
              (MayAnswer(b, generation, mask, amount, Busy) <==>
               !exists channel: Channel :: MayAnswer(b, generation, mask, amount, Granted(channel)))
    ensures MayAnswer(b, generation, mask, amount, Again) <==> generation != b.generation
    ensures generation != b.generation ==>
              forall a :: MayAnswer(b, generation, mask, amount, a) ==> a == Again
  {
    if generation == b.generation && mask * b.free != {} && amount <= b.available {
      var c :| c in mask * b.free;
      assert MayAnswer(b, generation, mask, amount, Granted(c));
    }
    forall channel: Channel ensures channel in mask && channel in b.free <==> channel in mask * b.free {
    }
  }

  /** After a bus reset an update can take the client's channel and its bandwidth again,
      with the overhead as it is now, if they are free; and it takes nothing else. */
  lemma UpdateRecovers(b: Bus, c: nat)
    requires Inv(b) && c < |b.clients| && b.clients[c].phase.Idle? && b.clients[c].r.isAllocated
    requires b.clients[c].r.generation != b.generation && b.clients[c].r.channel in b.free
    requires b.clients[c].r.bandwidth + BandwidthOverhead(b.gapCount) <= b.available
    ensures Enabled(Next(b, UpdateBegin(c)), UpdateEnd(c, Granted(b.clients[c].r.channel)))
    ensures var e := Next(Next(b, UpdateBegin(c)), UpdateEnd(c, Granted(b.clients[c].r.channel)));
            var r, s := b.clients[c].r, e.clients[c].r;
            && IsCurrent(e, e.clients[c]) && s.channel == r.channel && s.bandwidth == r.bandwidth
            && s.overhead == BandwidthOverhead(b.gapCount)
            && e.clients[c].charge == Charge(r.channel, r.bandwidth + s.overhead)
            && e.free == b.free - {r.channel} && e.available == b.available - r.bandwidth - s.overhead
            && forall d :: 0 <= d < |b.clients| && d != c ==> e.clients[d] == b.clients[d]
  {
  }

  /** A free in the generation of the charge gives back exactly the charge; any
      other free changes nothing at the manager. */
  lemma FreeReturnsCharge(b: Bus, c: nat)
    requires Inv(b) && Enabled(b, Free(c, false))
    ensures var b' := Next(b, Free(c, false)); var x := b.clients[c];
            && !b'.clients[c].r.isAllocated && b'.clients[c].charge.NoCharge?
            && if x.charge.Charge?
               then
                 && b'.available == b.available + x.charge.amount
                 && b'.free == b.free + {x.charge.channel} && x.charge.channel !in b.free
               else b'.available == b.available && b'.free == b.free
  {
    assert AccountOk(b, b.clients[c]);
    if b.clients[c].charge.Charge? {
      assert Holds(ChargesOf(b.clients), c, b.clients[c].charge.channel);
    }
  }

  // ---------------------------------------------------------------------
  // Where conservation among the clients can be lost
  // ---------------------------------------------------------------------

  /** The two steps that leave a charge without an owner, by the client's own
      fields: a free of current resources that fails, and the end of a repeated
      update, whatever its answer, before another reset. */
  predicate Loses(b: Bus, s: Step)
    requires s.Free? || s.UpdateEnd? ==> s.c < |b.clients|
  {
    || (s.Free? && s.failed && IsCurrent(b, b.clients[s.c]))
    || (s.UpdateEnd? && b.clients[s.c].phase == Updating(true) && IsCurrent(b, b.clients[s.c]))
  }

  lemma OrphanedIff(b: Bus, s: Step)
    requires Inv(b) && Enabled(b, s) && !s.BusReset?
    ensures Next(b, s).orphanedChannels != b.orphanedChannels <==> Loses(b, s)
    ensures Next(b, s).orphaned >= b.orphaned && Next(b, s).orphanedChannels >= b.orphanedChannels
  {
    if s.Free? || s.UpdateEnd? {
      var x := b.clients[s.c];
      assert AccountOk(b, x);
      if x.charge.Charge? {
        assert Holds(ChargesOf(b.clients), s.c, x.charge.channel);
      }
    }
  }

  /** What the delay before new allocations is for: an update comes only when
      the client's resources are not yet those of this generation. And frees
      succeed. */
  predicate Careful(b: Bus, s: Step)
    requires s.Free? || s.UpdateBegin? ==> s.c < |b.clients|
  {
    && (s.Free? ==> !s.failed)
    && (s.UpdateBegin? ==> !IsCurrent(b, b.clients[s.c]))
  }

  ghost predicate IsCarefulRun(b: Bus, steps: seq<Step>)
    decreases |steps|
  {
    steps == [] || (Enabled(b, steps[0]) && Careful(b, steps[0]) && IsCarefulRun(Next(b, steps[0]), steps[1..]))
  }

  ghost predicate NothingLost(b: Bus) {
    && b.orphaned == 0 && b.orphanedChannels == {}
    && forall i :: 0 <= i < |b.clients| && b.clients[i].phase.Updating? ==> !b.clients[i].phase.repeated
  }

  lemma {:induction false} CarefulRunLosesNothing(b: Bus, steps: seq<Step>)
    requires Inv(b) && NothingLost(b) && IsCarefulRun(b, steps)
    ensures IsRun(b, steps) && Inv(Final(b, steps)) && NothingLost(Final(b, steps))
    decreases |steps|
  {
    if steps != [] {
      StepKeeps(b, steps[0]);
      CarefulRunLosesNothing(Next(b, steps[0]), steps[1..]);
    }
  }

  /** So in careful runs the clients and the foreign nodes account for all of
      the bandwidth that is not available, at every moment. */
  lemma CarefulConservation(b: Bus, steps: seq<Step>)
    requires IsFresh(b) && IsCarefulRun(b, steps)
    ensures IsRun(b, steps)
    ensures var e := Final(b, steps);
            e.available + Charged(ChargesOf(e.clients), |e.clients|) + e.foreign == BANDWIDTH_AVAILABLE_INITIAL
  {
    FreshInv(b);
    CarefulRunLosesNothing(b, steps);
  }

  /** Without the delay it fails: whatever the manager answers, a second update
      in one generation ends with the client unallocated and its channel lost
      until the next reset. */
  lemma SecondUpdateLoses(b: Bus, c: nat, a: Answer)
    requires Inv(b) && c < |b.clients| && b.clients[c].phase.Idle? && IsCurrent(b, b.clients[c])
    requires Enabled(Next(b, UpdateBegin(c)), UpdateEnd(c, a))
    ensures var e := Next(Next(b, UpdateBegin(c)), UpdateEnd(c, a));
            && !e.clients[c].r.isAllocated
            && b.clients[c].r.channel in e.orphanedChannels && e.orphaned == b.orphaned + Amount(b.clients[c].r)
  {
    assert AccountOk(b, b.clients[c]);
    assert Holds(ChargesOf(b.clients), c, b.clients[c].charge.channel);
  }
}
