/** One plug register and the connections of any number of controllers that share
    it (sound/firewire/cmp.c): every interleaving of their compare-swaps with bus
    resets, lost answers and failures. */
module CmpSharing {
  import opened IsoResources
  import opened Cmp
  import opened CompareSwap

  /** Where a connection stands: outside of a call, or in pcr_modify with `expected`
      in buffer[0]. */
  datatype Phase = Idle | Modifying(change: Change, expected: Register)

  /** A connection with the generation of its resources and the last connection it
      tried to set up. */
  datatype Client = Client(connected: bool, last: Register, generation: int, wanted: Change, phase: Phase)

  /** The register; `holders` are the connections that have been established in this
      generation and not ended since, as far as their controllers know. */
  datatype Plug = Plug(generation: int, pcr: Register, clients: seq<Client>, holders: set<nat>)

  datatype Step =
    | BusReset(pcr: Register)             // ends all connections at the plug
    | SetBegin(c: nat, change: Change)    // establish or update, with the resources in hand
    | BreakBegin(c: nat)
    | Swap(c: nat, lost: bool)            // one compare-swap; its answer may be lost
    | Stale(c: nat)                       // the generation is no longer current
    | Fail(c: nat)                        // the transaction has failed for good
    | Lose(c: nat)                        // an update that gets no resources

  predicate IsModifying(p: Plug, c: nat) { c < |p.clients| && p.clients[c].phase.Modifying? }

  ghost predicate Enabled(p: Plug, s: Step) {
    match s
    case BusReset(pcr) => !InUse(pcr)
    case SetBegin(c, change) => c < |p.clients| && p.clients[c].phase.Idle? && !change.BreakConnection?
    case BreakBegin(c) => c < |p.clients| && p.clients[c].phase.Idle? && p.clients[c].connected
    case Swap(c, _) => IsModifying(p, c) && p.clients[c].generation == p.generation
    case Stale(c) => IsModifying(p, c) && p.clients[c].generation != p.generation
    case Fail(c) => IsModifying(p, c)
    case Lose(c) => c < |p.clients| && p.clients[c].phase.Idle? && p.clients[c].connected
  }

  function SetClient(p: Plug, c: nat, x: Client): Plug
    requires c < |p.clients|
  {
    p.(clients := p.clients[c := x])
  }

  /** A connection that its controller gives up. */
  function Ended(p: Plug, c: nat): Plug
    requires c < |p.clients|
  {
    SetClient(p, c, p.clients[c].(connected := false, phase := Idle)).(holders := p.holders - {c})
  }

  /** The device carries out a swap; all connections end with the register's. */
  function Swapped(p: Plug, change: Change): Plug {
    p.(pcr := Modify(change, p.pcr), holders := if change.BreakConnection? then {} else p.holders)
  }

  ghost function Next(p: Plug, s: Step): (q: Plug)
    requires Enabled(p, s)
    ensures |q.clients| == |p.clients|
  {
    match s
    case BusReset(pcr) => p.(generation := p.generation + 1, pcr := pcr, holders := {})
    case SetBegin(c, change) =>
      var x := p.clients[c];
      SetClient(p, c, x.(generation := p.generation, wanted := change, phase := Modifying(change, x.last)))
    case BreakBegin(c) =>
      SetClient(p, c, p.clients[c].(phase := Modifying(BreakConnection, p.clients[c].last)))
    case Swap(c, lost) =>
      var x := p.clients[c];
      var change := x.phase.change;
      if p.pcr == x.phase.expected then
        var q := Swapped(p, change);
        if lost then q
        else if change.BreakConnection? then SetClient(q, c, x.(connected := false, last := q.pcr, phase := Idle))
        else SetClient(q, c, x.(connected := true, last := q.pcr, phase := Idle)).(holders := q.holders + {c})
      else if lost then p
      else if Check(change, p.pcr) < 0 then Ended(p, c)
      else SetClient(p, c, x.(phase := Modifying(change, p.pcr)))
    case Stale(c) =>
      var x := p.clients[c];
      SetClient(p, c, x.(connected := x.connected && !x.phase.change.BreakConnection?, phase := Idle))
    case Fail(c) => Ended(p, c)
    case Lose(c) => Ended(p, c)
  }

  /** A swap is one round of the loop in pcr_modify. */
  lemma SwapIsRound(p: Plug, c: nat, succeedOnReset: bool, responses: seq<Response<Register>>, k: nat)
    requires Enabled(p, Swap(c, false)) && k < |responses| && responses[k] == Answered(p.pcr)
    ensures var x := p.clients[c]; var y := Next(p, Swap(c, false)).clients[c]; var change := x.phase.change;
            var o := PcrModify(Modifier(change), Checker(change), x.last, x.phase.expected, succeedOnReset, responses,
                               k);
            if y.phase.Idle?
            then
              && o.last == y.last
              && o.err == (if p.pcr == x.phase.expected then 0 else Check(change, p.pcr))
              && (y.connected <==> o.err == 0 && !change.BreakConnection?)
            else
              o == PcrModify(Modifier(change), Checker(change), y.last, y.phase.expected, succeedOnReset, responses,
                             k + 1)
  {
    hide Check, Modify, InUse, Online, PcrModify;
    var x := p.clients[c];
    AnsweredRound(Modifier(x.phase.change), Checker(x.phase.change), x.last, x.phase.expected, succeedOnReset,
                  responses, k, p.pcr);
  }

  /** A request without effect that meets a bus reset is the last round of the loop; the
      call that establishes a connection fails then, the others succeed. */
  lemma StaleIsRound(p: Plug, c: nat, responses: seq<Response<Register>>, k: nat)
    requires Enabled(p, Stale(c)) && k < |responses| && responses[k].StaleGeneration?
    ensures var x, q := p.clients[c], Next(p, Stale(c)); var y, change := q.clients[c], x.phase.change;
            var o := PcrModify(Modifier(change), Checker(change), x.last, x.phase.expected, x.connected, responses, k);
            && o.write.NoWrite? && (o.err == 0 <==> x.connected)
            && y == Client(o.err == 0 && !change.BreakConnection?, o.last, x.generation, x.wanted, Idle)
            && q == p.(clients := p.clients[c := y])
  {
  }

  /** A call that fails for good, or gets no resources, ends the connection for its
      controller; the register stays as it is. */
  lemma FailureEnds(p: Plug, s: Step)
    requires (s.Fail? || s.Lose?) && Enabled(p, s)
    ensures var q := Next(p, s);
            && !q.clients[s.c].connected && q.clients[s.c].phase.Idle? && q.holders == p.holders - {s.c}
            && q.pcr == p.pcr && q.clients[s.c].last == p.clients[s.c].last
            && forall d :: 0 <= d < |p.clients| && d != s.c ==> q.clients[d] == p.clients[d]
  {
  }

  /** A request whose answer is lost swaps or not, and its controller does not notice. */
  lemma LostIsUnnoticed(p: Plug, c: nat)
    requires Enabled(p, Swap(c, true))
    ensures var x, q := p.clients[c].phase, Next(p, Swap(c, true));
            && q.clients == p.clients && q.generation == p.generation
            && q.pcr == (if p.pcr == x.expected then Modify(x.change, p.pcr) else p.pcr)
            && q.holders == if p.pcr == x.expected && x.change.BreakConnection? then {} else p.holders
  {
  }

  // ---------------------------------------------------------------------
  // Invariant
  // ---------------------------------------------------------------------

  predicate Sets(x: Client) { x.phase.Modifying? && !x.phase.change.BreakConnection? }

  ghost predicate ClientOk(p: Plug, c: nat)
    requires c < |p.clients|
  {
    var x := p.clients[c];
    && x.generation <= p.generation
    && (c in p.holders ==> x.connected && x.generation == p.generation && InUse(x.last) && InUse(p.pcr))
    && (Sets(x) ==> x.wanted == x.phase.change && (x.phase.expected == x.last || !InUse(x.phase.expected)))
  }

  ghost predicate Inv(p: Plug) {
    && (forall c :: c in p.holders ==> c < |p.clients|)
    && (forall c :: 0 <= c < |p.clients| ==> ClientOk(p, c))
  }

  lemma StepKeeps(p: Plug, s: Step)
    requires Inv(p) && Enabled(p, s)
    ensures Inv(Next(p, s))
  {
    hide Modify, InUse, Online, Check;
    var q := Next(p, s);
    if s.Swap? {
      if p.pcr == p.clients[s.c].phase.expected {
        MatchKeeps(p, s.c, s.lost);
      } else {
        MismatchKeeps(p, s.c, s.lost);
      }
    } else {
      forall c | 0 <= c < |q.clients| ensures ClientOk(q, c) {
        assert ClientOk(p, c);
      }
    }
  }

  lemma MatchKeeps(p: Plug, c: nat, lost: bool)
    requires Inv(p) && Enabled(p, Swap(c, lost)) && p.pcr == p.clients[c].phase.expected
    ensures Inv(Next(p, Swap(c, lost)))
  {
    hide Modify, InUse, Online, Check;
    var q := Next(p, Swap(c, lost));
    ModifyMarks(p.clients[c].phase.change, p.pcr);
    forall d | 0 <= d < |q.clients| ensures ClientOk(q, d) {
      assert ClientOk(p, d);
    }
  }

  lemma MismatchKeeps(p: Plug, c: nat, lost: bool)
    requires Inv(p) && Enabled(p, Swap(c, lost)) && p.pcr != p.clients[c].phase.expected
    ensures Inv(Next(p, Swap(c, lost)))
  {
    hide Modify, InUse, Online, Check;
    var q := Next(p, Swap(c, lost));
    CheckedIsFree(p.clients[c].phase.change, p.pcr);
    forall d | 0 <= d < |q.clients| ensures ClientOk(q, d) {
      assert ClientOk(p, d);
    }
  }

  lemma CheckedIsFree(change: Change, pcr: Register)
    ensures !change.BreakConnection? && Check(change, pcr) >= 0 ==> !InUse(pcr)
  {
  }

  // ---------------------------------------------------------------------
  // Two established connections at one register
  // ---------------------------------------------------------------------

  ghost predicate IsShared(p: Plug) { exists c, d :: c in p.holders && d in p.holders && c != d }

  /** A connection is set up over another one: the register is in use, and just as
      the connection has it cached from before, so that it is not checked. */
  ghost predicate TakesOver(p: Plug, s: Step) {
    && s.Swap? && !s.lost && IsModifying(p, s.c) && Sets(p.clients[s.c])
    && p.pcr == p.clients[s.c].phase.expected == p.clients[s.c].last && InUse(p.pcr)
    && exists d :: d in p.holders && d != s.c
  }

  lemma StepSharesIff(p: Plug, s: Step)
    requires Inv(p) && Enabled(p, s) && !IsShared(p)
    ensures IsShared(Next(p, s)) <==> TakesOver(p, s)
  {
    hide Modify, InUse, Online, Check;
    var q := Next(p, s);
    if s.Swap? {
      assert ClientOk(p, s.c);
      if d :| d in p.holders && d != s.c {
        assert ClientOk(p, d);
        if TakesOver(p, s) {
          assert s.c in q.holders && d in q.holders;
        }
      }
    }
  }

  ghost predicate IsRun(p: Plug, steps: seq<Step>)
    decreases |steps|
  {
    steps == [] || (Enabled(p, steps[0]) && IsRun(Next(p, steps[0]), steps[1..]))
  }

  ghost function Final(p: Plug, steps: seq<Step>): (q: Plug)
    requires IsRun(p, steps)
    ensures |q.clients| == |p.clients|
    decreases |steps|
  {
    if steps == [] then p else Final(Next(p, steps[0]), steps[1..])
  }

  /** At some moment of the run two established connections share the register. */
  ghost predicate EverShared(p: Plug, steps: seq<Step>)
    requires IsRun(p, steps)
    decreases |steps|
  {
    IsShared(p) || (steps != [] && EverShared(Next(p, steps[0]), steps[1..]))
  }

  ghost predicate EverTakesOver(p: Plug, steps: seq<Step>)
    requires IsRun(p, steps)
    decreases |steps|
  {
    steps != [] && (TakesOver(p, steps[0]) || EverTakesOver(Next(p, steps[0]), steps[1..]))
  }

  /** In any run, with any controllers, resets and losses: a register comes to belong
      to two established connections exactly if one is set up over another. */
  lemma {:induction false} EverSharedIff(p: Plug, steps: seq<Step>)
    requires Inv(p) && !IsShared(p) && IsRun(p, steps)
    ensures EverShared(p, steps) <==> EverTakesOver(p, steps)
    decreases |steps|
  {
    if steps != [] {
      hide Inv, Next, Enabled, TakesOver, IsShared;
      StepKeeps(p, steps[0]);
      StepSharesIff(p, steps[0]);
      if !IsShared(Next(p, steps[0])) {
        EverSharedIff(Next(p, steps[0]), steps[1..]);
      } else {
        SharedNow(Next(p, steps[0]), steps[1..]);
      }
    }
  }

  lemma SharedNow(p: Plug, steps: seq<Step>)
    requires IsRun(p, steps) && IsShared(p)
    ensures EverShared(p, steps)
  {
  }

  // ---------------------------------------------------------------------
  // It is reached
  // ---------------------------------------------------------------------

  lemma {:induction false} RunConcat(p: Plug, a: seq<Step>, b: seq<Step>)
    requires IsRun(p, a) && IsRun(Final(p, a), b)
    ensures IsRun(p, a + b) && Final(p, a + b) == Final(Final(p, a), b)
    decreases |a|
  {
    hide Next, Enabled;
    if a == [] {
      assert a + b == b;
    } else {
      RunConcat(Next(p, a[0]), a[1..], b);
      assert (a + b)[1..] == a[1..] + b;
    }
  }

  lemma TwoSteps(p: Plug, a: Step, b: Step)
    requires Enabled(p, a) && Enabled(Next(p, a), b)
    ensures IsRun(p, [a, b]) && Final(p, [a, b]) == Next(Next(p, a), b)
  {
    hide Next, Enabled;
    assert [a, b][1..] == [b] && [b][1..] == [];
    assert IsRun(Next(p, a), [b]) && Final(Next(p, a), [b]) == Next(Next(p, a), b);
  }

  /** A plug that nobody has used yet, and connections as cmp_connection_init leaves
      them. */
  ghost predicate IsFresh(p: Plug) {
    && !InUse(p.pcr) && p.holders == {}
    && forall c :: 0 <= c < |p.clients| ==>
         var x := p.clients[c];
         x.phase.Idle? && !x.connected && x.last == p.pcr && x.generation <= p.generation
  }

  function Setting(c: nat, change: Change): seq<Step> { [SetBegin(c, change), Swap(c, false)] }

  /** A connection is set up at once if the register is as it has it cached. */
  lemma SetFromCache(p: Plug, c: nat, change: Change)
    requires Enabled(p, SetBegin(c, change)) && p.clients[c].last == p.pcr
    ensures IsRun(p, Setting(c, change))
    ensures var now := Modify(change, p.pcr);
            Final(p, Setting(c, change)) ==
            Plug(p.generation, now, p.clients[c := Client(true, now, p.generation, change, Idle)], p.holders + {c})
  {
    hide Modify, Check;
    TwoSteps(p, SetBegin(c, change), Swap(c, false));
  }

  /** Connection 0 is set up, breaking it fails, and a bus reset frees the plug. */
  function BreakFailing(change: Change, free: Register): seq<Step> {
    Setting(0, change) + ([BreakBegin(0), Fail(0)] + [BusReset(free)])
  }

  /** The cached value stays in use. */
  lemma CachedInUse(p: Plug, change: Change)
    requires IsFresh(p) && p.clients != [] && !change.BreakConnection?
    ensures IsRun(p, BreakFailing(change, p.pcr))
    ensures var x := Client(false, Modify(change, p.pcr), p.generation, change, Idle);
            Final(p, BreakFailing(change, p.pcr)) == Plug(p.generation + 1, p.pcr, p.clients[0 := x], {})
  {
    hide Modify, InUse, Next, Final, IsRun;
    SetFromCache(p, 0, change);
    var q := Final(p, Setting(0, change));
    FailAndReset(q, 0, p.pcr);
    RunConcat(p, Setting(0, change), [BreakBegin(0), Fail(0)] + [BusReset(p.pcr)]);
  }

  lemma FailAndReset(p: Plug, c: nat, free: Register)
    requires Enabled(p, BreakBegin(c)) && !InUse(free)
    ensures IsRun(p, [BreakBegin(c), Fail(c)] + [BusReset(free)])
    ensures var x := p.clients[c].(connected := false, phase := Idle);
            Final(p, [BreakBegin(c), Fail(c)] + [BusReset(free)]) ==
            Plug(p.generation + 1, free, p.clients[c := x], {})
  {
    hide Modify, InUse, Check;
    TwoSteps(p, BreakBegin(c), Fail(c));
    var r := Next(Next(p, BreakBegin(c)), Fail(c));
    assert [BusReset(free)][1..] == [] && Enabled(r, BusReset(free));
    RunConcat(p, [BreakBegin(c), Fail(c)], [BusReset(free)]);
  }

  /** Then connection 1 is set up in just the same way, and connection 0, with
      whatever change, again. */
  function TakeoverSteps(first: Change, second: Change, free: Register): seq<Step> {
    BreakFailing(first, free) + (Setting(1, first) + Setting(0, second))
  }

  /** Both are established after that, and the register describes the second one's
      connection only. */
  lemma TakeoverIsReached(p: Plug, first: Change, second: Change)
    requires IsFresh(p) && |p.clients| >= 2 && !first.BreakConnection? && !second.BreakConnection?
    ensures var steps := TakeoverSteps(first, second, p.pcr);
            && IsRun(p, steps)
            && var q := Final(p, steps);
            && IsShared(q) && q.clients[0].connected && q.clients[1].connected
            && Describes(second, q.pcr, Modify(first, p.pcr))
  {
    hide Modify, InUse, Describes, Next, IsRun, Final;
    CachedInUse(p, first);
    var q := Final(p, BreakFailing(first, p.pcr));
    SetFromCache(q, 1, first);
    var r := Final(q, Setting(1, first));
    SetFromCache(r, 0, second);
    RunConcat(q, Setting(1, first), Setting(0, second));
    RunConcat(p, BreakFailing(first, p.pcr), Setting(1, first) + Setting(0, second));
    ModifyDescribes(second, Modify(first, p.pcr));
    var e := Final(r, Setting(0, second));
    assert 0 in e.holders && 1 in e.holders;
  }

  // ---------------------------------------------------------------------
  // When it cannot happen
  // ---------------------------------------------------------------------

  function ChannelOf(change: Change): Channel {
    match change
    case SetInput(channel) => channel
    case SetOutput(channel, _, _) => channel
    case BreakConnection => 0
  }

  /** Connections that have, or are about to have, the register in this generation. */
  ghost predicate IsActive(p: Plug, c: nat) {
    c < |p.clients| && (c in p.holders || (Sets(p.clients[c]) && p.clients[c].generation == p.generation))
  }

  /** What keeps a connection from taking over: no other one has its channel, as the
      bus's resource manager sees to, and a cached value that is in use is that of
      a connection on the same channel. */
  ghost predicate IsCareful(p: Plug, s: Step)
    requires Enabled(p, s)
  {
    s.SetBegin? ==>
      && (InUse(p.clients[s.c].last) ==> ChannelField(p.clients[s.c].last) == ChannelBits(ChannelOf(s.change)))
      && forall d: nat :: d != s.c && IsActive(p, d) ==> ChannelOf(p.clients[d].wanted) != ChannelOf(s.change)
  }

  ghost predicate IsCarefulRun(p: Plug, steps: seq<Step>)
    decreases |steps|
  {
    steps == [] ||
    (Enabled(p, steps[0]) && IsCareful(p, steps[0]) && IsCarefulRun(Next(p, steps[0]), steps[1..]))
  }

  ghost predicate OnItsChannel(p: Plug, c: nat)
    requires c < |p.clients|
  {
    var x := p.clients[c]; var bits := ChannelBits(ChannelOf(x.wanted));
    && (c in p.holders ==> ChannelField(p.pcr) == bits && ChannelField(x.last) == bits)
    && (Sets(x) && InUse(x.last) ==> ChannelField(x.last) == bits)
  }

  ghost predicate CarefulInv(p: Plug) {
    && Inv(p) && !IsShared(p)
    && (forall c :: 0 <= c < |p.clients| ==> OnItsChannel(p, c))
    && (forall c: nat, d: nat :: IsActive(p, c) && IsActive(p, d) && c != d ==>
          ChannelOf(p.clients[c].wanted) != ChannelOf(p.clients[d].wanted))
  }

  lemma SameBits(a: Channel, b: Channel)
    ensures ChannelBits(a) == ChannelBits(b) ==> a == b
  {
    ChannelInRange(a);
    ChannelInRange(b);
  }

  lemma SetChannel(change: Change, pcr: Register)
    requires !change.BreakConnection?
    ensures ChannelField(Modify(change, pcr)) == ChannelBits(ChannelOf(change))
  {
    ModifyDescribes(change, pcr);
    hide Modify;
  }

  /** A swap never meets a register that another connection has. */
  lemma NothingToTake(p: Plug, c: nat)
    requires CarefulInv(p) && Enabled(p, Swap(c, false)) && Sets(p.clients[c])
    requires p.pcr == p.clients[c].phase.expected
    ensures forall d :: d in p.holders ==> d == c
  {
    hide Modify, InUse, Online, Check, ChannelField, ChannelBits;
    assert ClientOk(p, c) && OnItsChannel(p, c) && IsActive(p, c);
    forall d | d in p.holders ensures d == c {
      assert ClientOk(p, d) && OnItsChannel(p, d) && IsActive(p, d);
      if d != c {
        SameBits(ChannelOf(p.clients[c].wanted), ChannelOf(p.clients[d].wanted));
      }
    }
  }

  lemma CarefulStep(p: Plug, s: Step)
    requires CarefulInv(p) && Enabled(p, s) && IsCareful(p, s)
    ensures CarefulInv(Next(p, s))
  {
    hide Modify, InUse, Online, Check, ChannelField, ChannelBits, ChannelOf;
    StepKeeps(p, s);
    StaysExclusive(p, s);
    StaysOnChannels(p, s);
    StaysDistinct(p, s);
    hide Next, Inv, IsShared, OnItsChannel, IsActive;
  }

  lemma StaysExclusive(p: Plug, s: Step)
    requires CarefulInv(p) && Enabled(p, s)
    ensures !IsShared(Next(p, s))
  {
    hide Modify, InUse, Online, Check, OnItsChannel, IsActive, Next;
    StepSharesIff(p, s);
    if TakesOver(p, s) {
      NothingToTake(p, s.c);
    }
  }

  lemma StaysOnChannels(p: Plug, s: Step)
    requires CarefulInv(p) && Enabled(p, s) && IsCareful(p, s)
    ensures forall c :: 0 <= c < |p.clients| ==> OnItsChannel(Next(p, s), c)
  {
    hide Modify, InUse, Online, Check, ChannelField, ChannelBits, ChannelOf, IsShared, IsActive;
    var q := Next(p, s);
    if s.Swap? && Sets(p.clients[s.c]) && p.pcr == p.clients[s.c].phase.expected {
      SetStaysOnChannel(p, s.c, s.lost);
    } else if s.Swap? {
      OtherSwapStays(p, s.c, s.lost);
    } else {
      forall c | 0 <= c < |q.clients| ensures OnItsChannel(q, c) {
        assert OnItsChannel(p, c) && ClientOk(p, c);
      }
    }
  }

  lemma OtherSwapStays(p: Plug, c: nat, lost: bool)
    requires CarefulInv(p) && Enabled(p, Swap(c, lost))
    requires !(Sets(p.clients[c]) && p.pcr == p.clients[c].phase.expected)
    ensures forall d :: 0 <= d < |p.clients| ==> OnItsChannel(Next(p, Swap(c, lost)), d)
  {
    hide Modify, InUse, Online, Check, ChannelField, ChannelBits, ChannelOf, IsShared, IsActive;
    var q := Next(p, Swap(c, lost));
    forall d | 0 <= d < |q.clients| ensures OnItsChannel(q, d) {
      assert OnItsChannel(p, d) && ClientOk(p, d);
    }
  }

  lemma SetStaysOnChannel(p: Plug, c: nat, lost: bool)
    requires CarefulInv(p) && Enabled(p, Swap(c, lost)) && Sets(p.clients[c]) && p.pcr == p.clients[c].phase.expected
    ensures forall d :: 0 <= d < |p.clients| ==> OnItsChannel(Next(p, Swap(c, lost)), d)
  {
    hide Modify, InUse, Online, Check, ChannelField, ChannelBits, ChannelOf, IsShared, IsActive;
    var q := Next(p, Swap(c, lost));
    SetChannel(p.clients[c].phase.change, p.pcr);
    NothingToTake(p, c);
    assert ClientOk(p, c) && OnItsChannel(p, c);
    forall d | 0 <= d < |q.clients| ensures OnItsChannel(q, d) {
      assert OnItsChannel(p, d) && ClientOk(p, d);
    }
  }

  lemma StaysDistinct(p: Plug, s: Step)
    requires CarefulInv(p) && Enabled(p, s) && IsCareful(p, s)
    ensures forall c: nat, d: nat :: IsActive(Next(p, s), c) && IsActive(Next(p, s), d) && c != d ==>
              ChannelOf(Next(p, s).clients[c].wanted) != ChannelOf(Next(p, s).clients[d].wanted)
  {
    hide InUse, ChannelField, ChannelBits, ChannelOf, IsShared, OnItsChannel, Next;
    var q := Next(p, s);
    forall c: nat, d: nat | IsActive(q, c) && IsActive(q, d) && c != d
      ensures ChannelOf(q.clients[c].wanted) != ChannelOf(q.clients[d].wanted)
    {
      WasActive(p, s, c);
      WasActive(p, s, d);
    }
  }

  /** What is active has been so before, with the same change, or begins. */
  lemma WasActive(p: Plug, s: Step, c: nat)
    requires Inv(p) && Enabled(p, s) && IsActive(Next(p, s), c)
    ensures c < |p.clients|
    ensures if s.SetBegin? && s.c == c then Next(p, s).clients[c].wanted == s.change
            else IsActive(p, c) && Next(p, s).clients[c].wanted == p.clients[c].wanted
  {
    hide Modify, InUse, Online, Check;
    assert ClientOk(p, c);
  }

  /** Then no run ever brings a register into two connections' hands. */
  lemma {:induction false} CarefulRunIsExclusive(p: Plug, steps: seq<Step>)
    requires CarefulInv(p) && IsCarefulRun(p, steps)
    ensures IsRun(p, steps) && !IsShared(Final(p, steps))
    decreases |steps|
  {
    hide Next, IsCareful, Enabled;
    if steps != [] {
      CarefulStep(p, steps[0]);
      CarefulRunIsExclusive(Next(p, steps[0]), steps[1..]);
    }
  }

  lemma FreshIsCareful(p: Plug)
    requires IsFresh(p)
    ensures CarefulInv(p)
  {
    hide InUse, ChannelField, ChannelBits;
  }
}
