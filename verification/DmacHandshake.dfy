/** SPI and UART callers sharing one DMA controller: channels and semaphores over every interleaving of
    their steps, hardware completions and interrupts (sdk/driver/spi/hgspi_dw.c, sdk/driver/uart/hguart.c,
    sdk/driver/dma/dw_dmac.c). Device number `t` is driven by caller `t`. */
module DmacHandshake {
  import opened DwDmac

  /** What a driver call does with the controller: take a channel and start a transfer on it, or wait on a
      semaphore. */
  datatype Op = Take(r: Role) | Start(r: Role, ch: nat) | Await(r: Role)

  function Transmit(kind: Kind, dev: nat): seq<Op> {
    [Take(Role(kind, dev)), Await(Role(kind, dev))]
  }

  /** `hgspi_dw_read`: only a master also needs the transmit channel, which makes the clock. */
  function SpiRead(dev: nat, master: bool): seq<Op> {
    var rx, tx := Role(SpiRx, dev), Role(SpiTx, dev);
    if master then [Take(rx), Take(tx), Await(tx), Await(rx)] else [Take(rx), Await(rx)]
  }

  /** The DMA paths of `hgspi_dw_read`, `hgspi_dw_write`, `hguart_puts` and `hguart_gets`; the last does not wait. */
  predicate IsCall(p: seq<Op>, dev: nat) {
    || p == SpiRead(dev, true) || p == SpiRead(dev, false)
    || p == Transmit(SpiTx, dev) || p == Transmit(UartTx, dev)
    || p == [Take(Role(UartRx, dev))]
  }

  /** `refused` is a history variable: the roles whose channel request this call saw refused. The drivers
      ignore the refusal. */
  datatype Caller = Caller(todo: seq<Op>, refused: set<Role>)

  datatype State = State(d: Dmac, callers: seq<Caller>)

  datatype Event =
    | Call(t: nat, p: seq<Op>)
    | DoTake(t: nat)
    | DoStart(t: nat)
    | DoAwait(t: nat)
    | Complete(ch: nat, ok: bool)
    | Interrupt(ch: nat)

  function Todo(s: State, t: nat): seq<Op>
    requires t < |s.callers|
  {
    s.callers[t].todo
  }

  predicate AtHead(s: State, t: nat) {
    t < |s.callers| && Todo(s, t) != []
  }

  predicate Enabled(s: State, e: Event)
    requires WellSized(s.d)
  {
    match e
    case Call(t, p) => t < |s.callers| && Todo(s, t) == [] && IsCall(p, t)
    case DoTake(t) => AtHead(s, t) && Todo(s, t)[0].Take?
    case DoStart(t) => AtHead(s, t) && Todo(s, t)[0].Start? && Todo(s, t)[0].ch < CHANNELS
    case DoAwait(t) => AtHead(s, t) && Todo(s, t)[0].Await? && Count(s.d, Todo(s, t)[0].r) > 0
    case Complete(ch, _) => ch < CHANNELS && s.d.running[ch]
    case Interrupt(ch) => ch < CHANNELS && (s.d.rawTfr[ch] || s.d.rawErr[ch])
  }

  function Apply(s: State, e: Event): (s': State)
    requires WellSized(s.d) && Enabled(s, e)
    ensures WellSized(s'.d) && |s'.callers| == |s.callers|
  {
    match e
    case Call(t, p) => s.(callers := s.callers[t := Caller(p, {})])
    case DoTake(t) =>
      var c, r := s.callers[t], Todo(s, t)[0].r;
      var ch := FirstFree(s.d.used, 0);
      if ch == CHANNELS then s.(callers := s.callers[t := Caller(c.todo[1..], c.refused + {r})])
      else State(Taken(s.d, r), s.callers[t := c.(todo := [Start(r, ch)] + c.todo[1..])])
    case DoStart(t) =>
      var c, op := s.callers[t], Todo(s, t)[0];
      State(Started(s.d, op.r, op.ch), s.callers[t := c.(todo := c.todo[1..])])
    case DoAwait(t) =>
      var c, r := s.callers[t], Todo(s, t)[0].r;
      State(s.d.(sema := s.d.sema[r := Count(s.d, r) - 1]), s.callers[t := c.(todo := c.todo[1..])])
    case Complete(ch, ok) =>
      s.(d := if ok then s.d.(running := s.d.running[ch := false], rawTfr := s.d.rawTfr[ch := true])
              else s.d.(running := s.d.running[ch := false], rawErr := s.d.rawErr[ch := true]))
    case Interrupt(ch) => s.(d := IrqChannel(s.d, ch))
  }

  // ---------------------------------------------------------------------------------------------
  // The invariant
  // ---------------------------------------------------------------------------------------------

  function Takes(p: seq<Op>, r: Role): (n: nat) {
    if p == [] then 0 else (if p[0] == Take(r) then 1 else 0) + Takes(p[1..], r)
  }

  function Awaits(p: seq<Op>, r: Role): (n: nat) {
    if p == [] then 0 else (if p[0] == Await(r) then 1 else 0) + Awaits(p[1..], r)
  }

  function For(d: Dmac, r: Role, ch: nat): (n: nat)
    requires WellSized(d) && ch < CHANNELS
  {
    if d.used[ch] && d.who[ch] == r then 1 else 0
  }

  /** How many channels are taken on behalf of `r`. */
  function Outstanding(d: Dmac, r: Role): (n: nat)
    requires WellSized(d)
  {
    For(d, r, 0) + For(d, r, 1) + For(d, r, 2) + For(d, r, 3)
  }

  /** The caller that took `ch` is about to start it. */
  predicate Claimed(s: State, ch: nat)
    requires WellSized(s.d) && ch < CHANNELS
  {
    var r := s.d.who[ch];
    AtHead(s, r.dev) && Todo(s, r.dev)[0] == Start(r, ch)
  }

  /** A taken channel has exactly one transfer outstanding: about to start, running, or finished and not yet
      served. A free one has none. */
  predicate ChannelOk(s: State, ch: nat)
    requires WellSized(s.d) && ch < CHANNELS
  {
    && Bit(Claimed(s, ch)) + Bit(s.d.running[ch]) + Bit(s.d.rawTfr[ch]) + Bit(s.d.rawErr[ch]) == Bit(s.d.used[ch])
    && (s.d.running[ch] || s.d.rawTfr[ch] || s.d.rawErr[ch] ==> s.d.hdl[ch] == s.d.who[ch])
  }

  /** Once a call has come to a wait it requests nothing more. */
  predicate TakesFirst(p: seq<Op>) {
    p == [] || (if p[0].Await? then NoTake(p) else TakesFirst(p[1..]))
  }

  predicate NoTake(p: seq<Op>) {
    p == [] || (!p[0].Take? && NoTake(p[1..]))
  }

  lemma {:induction false} NoTakeCounts(p: seq<Op>, r: Role)
    requires NoTake(p)
    ensures Takes(p, r) == 0 && TakesFirst(p)
  {
    if p != [] {
      NoTakeCounts(p[1..], r);
    }
  }

  /** The remaining steps of a caller: all for its own device, a start only at the front, requests before
      waits, and never two waits for one role. */
  ghost predicate TodoOk(s: State, t: nat)
    requires WellSized(s.d) && t < |s.callers|
  {
    var p := Todo(s, t);
    && (forall i {:trigger p[i]} :: 0 <= i < |p| ==> p[i].r.dev == t && (i > 0 ==> !p[i].Start?))
    && (forall r {:trigger Awaits(p, r)} :: Awaits(p, r) <= 1)
    && TakesFirst(p)
    && (p != [] && p[0].Start? ==> p[0].ch < CHANNELS && s.d.used[p[0].ch] && s.d.who[p[0].ch] == p[0].r)
  }

  /** Conservation: for every role with a semaphore, tokens up, channels out, requests to come and requests
      refused account for the waits to come. */
  predicate Balanced(s: State, r: Role)
    requires WellSized(s.d) && r.dev < |s.callers|
  {
    var c := s.callers[r.dev];
    r.kind.UartRx? ||
    Count(s.d, r) + Outstanding(s.d, r) + Takes(c.todo, r) + Bit(r in c.refused) == Awaits(c.todo, r)
  }

  ghost predicate Inv(s: State) {
    && WellSized(s.d)
    && (forall ch {:trigger ChannelOk(s, ch)} :: 0 <= ch < CHANNELS ==> ChannelOk(s, ch))
    && (forall t {:trigger TodoOk(s, t)} :: 0 <= t < |s.callers| ==> TodoOk(s, t))
    && (forall r: Role {:trigger Balanced(s, r)} :: r.dev < |s.callers| ==> Balanced(s, r))
  }

  lemma CountsCons(op: Op, p: seq<Op>, r: Role)
    ensures Takes([op] + p, r) == (if op == Take(r) then 1 else 0) + Takes(p, r)
    ensures Awaits([op] + p, r) == (if op == Await(r) then 1 else 0) + Awaits(p, r)
    ensures NoTake([op] + p) == (!op.Take? && NoTake(p))
    ensures TakesFirst([op] + p) == if op.Await? then NoTake(p) else TakesFirst(p)
  {
    assert ([op] + p)[1..] == p;
  }

  /** Every call waits exactly once for each transfer it requests, except that `hguart_gets` never waits. */
  lemma CallCounts(p: seq<Op>, dev: nat, r: Role)
    requires IsCall(p, dev)
    ensures Awaits(p, r) <= 1 && TakesFirst(p)
    ensures !r.kind.UartRx? ==> Takes(p, r) == Awaits(p, r)
  {
    var n := |p|;
    assert p == [p[0]] + p[1..];
    CountsCons(p[0], p[1..], r);
    if n > 1 {
      assert p[1..] == [p[1]] + p[2..];
      CountsCons(p[1], p[2..], r);
    }
    if n > 2 {
      assert p[2..] == [p[2]] + p[3..] && p[3..] == [p[3]] + p[4..];
      CountsCons(p[2], p[3..], r);
      CountsCons(p[3], p[4..], r);
    }
  }

  lemma CallShape(p: seq<Op>, dev: nat)
    requires IsCall(p, dev)
    ensures p != [] && p[0].Take?
    ensures forall i {:trigger p[i]} :: 0 <= i < |p| ==> p[i].r.dev == dev && !p[i].Start?
  {
  }

  lemma BalanceCall(s: State, t: nat, p: seq<Op>, r: Role)
    requires Inv(s) && Enabled(s, Call(t, p)) && r.dev < |s.callers|
    ensures Balanced(Apply(s, Call(t, p)), r)
  {
    assert Balanced(s, r);
    CallCounts(p, t, r);
  }

  lemma OutstandingChange(d: Dmac, d': Dmac, r: Role, ch: nat)
    requires WellSized(d) && WellSized(d') && ch < CHANNELS
    requires forall c :: 0 <= c < CHANNELS && c != ch ==> d'.used[c] == d.used[c] && d'.who[c] == d.who[c]
    ensures Outstanding(d', r) + For(d, r, ch) == Outstanding(d, r) + For(d', r, ch)
  {
    assert forall c :: 0 <= c < CHANNELS && c != ch ==> For(d', r, c) == For(d, r, c);
  }

  lemma BalanceTake(s: State, t: nat, r: Role)
    requires Inv(s) && Enabled(s, DoTake(t)) && r.dev < |s.callers|
    ensures Balanced(Apply(s, DoTake(t)), r)
  {
    assert Balanced(s, r) && TodoOk(s, t) && Todo(s, t)[0].r.dev == t;
    var ch := FirstFree(s.d.used, 0);
    if ch < CHANNELS {
      OutstandingChange(s.d, Taken(s.d, Todo(s, t)[0].r), r, ch);
      CountsCons(Start(Todo(s, t)[0].r, ch), Todo(s, t)[1..], r);
    }
  }

  /** One completion: the channel is free again and exactly one token is up, for the role that took it. */
  lemma IrqReleases(s: State, ch: nat)
    requires Inv(s) && Enabled(s, Interrupt(ch))
    ensures var d, d' := s.d, IrqChannel(s.d, ch);
            && d'.used == d.used[ch := false] && d.used[ch] && d'.who == d.who && d'.hdl == d.hdl
            && d'.running == d.running && !d.running[ch] && !Claimed(s, ch)
            && d'.rawTfr == d.rawTfr[ch := false] && d'.rawErr == d.rawErr[ch := false]
            && d'.sema == if d.who[ch].kind.UartRx? then d.sema else d.sema[d.who[ch] := Count(d, d.who[ch]) + 1]
  {
    assert ChannelOk(s, ch);
  }

  lemma BalanceInterrupt(s: State, ch: nat, r: Role)
    requires Inv(s) && Enabled(s, Interrupt(ch)) && r.dev < |s.callers|
    ensures Balanced(Apply(s, Interrupt(ch)), r)
  {
    assert Balanced(s, r);
    IrqReleases(s, ch);
    OutstandingChange(s.d, IrqChannel(s.d, ch), r, ch);
  }

  lemma ChannelStepInterrupt(s: State, at: nat, ch: nat)
    requires Inv(s) && Enabled(s, Interrupt(at)) && ch < CHANNELS
    ensures ChannelOk(Apply(s, Interrupt(at)), ch)
  {
    assert ChannelOk(s, ch);
    IrqReleases(s, at);
  }

  lemma BalanceStart(s: State, t: nat, r: Role)
    requires Inv(s) && Enabled(s, DoStart(t)) && r.dev < |s.callers|
    ensures Balanced(Apply(s, DoStart(t)), r)
  {
    assert Balanced(s, r) && TodoOk(s, t);
    assert forall ch :: 0 <= ch < CHANNELS ==> For(Apply(s, DoStart(t)).d, r, ch) == For(s.d, r, ch);
  }

  lemma BalanceAwait(s: State, t: nat, r: Role)
    requires Inv(s) && Enabled(s, DoAwait(t)) && r.dev < |s.callers|
    ensures Balanced(Apply(s, DoAwait(t)), r)
  {
    assert Balanced(s, r) && TodoOk(s, t) && Todo(s, t)[0].r.dev == t;
    assert forall ch :: 0 <= ch < CHANNELS ==> For(Apply(s, DoAwait(t)).d, r, ch) == For(s.d, r, ch);
  }

  lemma BalanceComplete(s: State, ch: nat, ok: bool, r: Role)
    requires Inv(s) && Enabled(s, Complete(ch, ok)) && r.dev < |s.callers|
    ensures Balanced(Apply(s, Complete(ch, ok)), r)
  {
    assert Balanced(s, r);
  }

  /** A caller's steps other than taking and starting leave channels alone. */
  lemma ChannelStepCaller(s: State, e: Event, ch: nat)
    requires Inv(s) && Enabled(s, e) && ch < CHANNELS && (e.Call? || e.DoAwait?)
    ensures ChannelOk(Apply(s, e), ch)
  {
    assert ChannelOk(s, ch) && TodoOk(s, e.t);
    if e.Call? {
      CallShape(e.p, e.t);
    } else if |Todo(s, e.t)| > 1 {
      assert !Todo(s, e.t)[1].Start?;
    }
  }

  lemma ChannelStepComplete(s: State, at: nat, ok: bool, ch: nat)
    requires Inv(s) && Enabled(s, Complete(at, ok)) && ch < CHANNELS
    ensures ChannelOk(Apply(s, Complete(at, ok)), ch)
  {
    assert ChannelOk(s, ch);
  }

  lemma ChannelStepTake(s: State, t: nat, ch: nat)
    requires Inv(s) && Enabled(s, DoTake(t)) && ch < CHANNELS
    ensures ChannelOk(Apply(s, DoTake(t)), ch)
  {
    assert ChannelOk(s, ch) && TodoOk(s, t) && Todo(s, t)[0].r.dev == t;
    if |Todo(s, t)| > 1 {
      assert !Todo(s, t)[1].Start?;
    }
  }

  lemma ChannelStepStart(s: State, t: nat, ch: nat)
    requires Inv(s) && Enabled(s, DoStart(t)) && ch < CHANNELS
    ensures ChannelOk(Apply(s, DoStart(t)), ch)
  {
    var op := Todo(s, t)[0];
    assert ChannelOk(s, ch) && ChannelOk(s, op.ch) && TodoOk(s, t) && op.r.dev == t;
    if |Todo(s, t)| > 1 {
      assert !Todo(s, t)[1].Start?;
    }
  }

  lemma TodoStepOther(s: State, e: Event, t: nat)
    requires Inv(s) && Enabled(s, e) && t < |s.callers| && !e.Complete? && !e.Interrupt? && e.t != t
    ensures TodoOk(Apply(s, e), t)
  {
    assert TodoOk(s, t) && Todo(Apply(s, e), t) == Todo(s, t);
  }

  lemma TodoStepHardware(s: State, e: Event, t: nat)
    requires Inv(s) && Enabled(s, e) && t < |s.callers| && (e.Complete? || e.Interrupt?)
    ensures TodoOk(Apply(s, e), t)
  {
    assert TodoOk(s, t);
    var p := Todo(s, t);
    if p != [] && p[0].Start? {
      assert p[0].r.dev == t;
      assert ChannelOk(s, p[0].ch) && Claimed(s, p[0].ch);
    }
    if e.Interrupt? {
      IrqReleases(s, e.ch);
    }
  }

  lemma TodoStepSelf(s: State, e: Event)
    requires Inv(s) && Enabled(s, e) && !e.Complete? && !e.Interrupt?
    ensures TodoOk(Apply(s, e), e.t)
  {
    assert TodoOk(s, e.t);
    var p, p' := Todo(s, e.t), Todo(Apply(s, e), e.t);
    if e.Call? {
      CallShape(e.p, e.t);
    } else if |p| > 1 {
      assert !p[1].Start?;
    }
    TakesFirstStep(s, e);
    forall r
      ensures Awaits(p', r) <= 1
    {
      AwaitsStep(s, e, r);
    }
  }

  lemma TakesFirstStep(s: State, e: Event)
    requires Inv(s) && Enabled(s, e) && !e.Complete? && !e.Interrupt?
    ensures TakesFirst(Todo(Apply(s, e), e.t))
  {
    assert TodoOk(s, e.t);
    var p, p' := Todo(s, e.t), Todo(Apply(s, e), e.t);
    if e.Call? {
      CallCounts(p', e.t, Role(SpiTx, e.t));
    } else if e.DoAwait? {
      NoTakeCounts(p[1..], p[0].r);
    } else if e.DoTake? && |p'| == |p| {
      assert p'[1..] == p[1..];
    }
  }

  lemma AwaitsStep(s: State, e: Event, r: Role)
    requires Inv(s) && Enabled(s, e) && !e.Complete? && !e.Interrupt?
    ensures Awaits(Todo(Apply(s, e), e.t), r) <= 1
  {
    assert TodoOk(s, e.t) && Awaits(Todo(s, e.t), r) <= 1;
    if e.Call? {
      CallCounts(e.p, e.t, r);
    } else if e.DoTake? {
      CountsCons(Start(Todo(s, e.t)[0].r, FirstFree(s.d.used, 0)), Todo(s, e.t)[1..], r);
    }
  }

  lemma InvStep(s: State, e: Event)
    requires Inv(s) && Enabled(s, e)
    ensures Inv(Apply(s, e))
  {
    var s' := Apply(s, e);
    forall ch | 0 <= ch < CHANNELS
      ensures ChannelOk(s', ch)
    {
      match e
      case DoTake(t) => ChannelStepTake(s, t, ch);
      case DoStart(t) => ChannelStepStart(s, t, ch);
      case Complete(at, ok) => ChannelStepComplete(s, at, ok, ch);
      case Interrupt(at) => ChannelStepInterrupt(s, at, ch);
      case _ => ChannelStepCaller(s, e, ch);
    }
    forall t | 0 <= t < |s'.callers|
      ensures TodoOk(s', t)
    {
      if e.Complete? || e.Interrupt? {
        TodoStepHardware(s, e, t);
      } else if e.t == t {
        TodoStepSelf(s, e);
      } else {
        TodoStepOther(s, e, t);
      }
    }
    forall r: Role | r.dev < |s'.callers|
      ensures Balanced(s', r)
    {
      match e
      case Call(t, p) => BalanceCall(s, t, p, r);
      case DoTake(t) => BalanceTake(s, t, r);
      case Complete(ch, ok) => BalanceComplete(s, ch, ok, r);
      case Interrupt(ch) => BalanceInterrupt(s, ch, r);
      case DoStart(t) => BalanceStart(s, t, r);
      case DoAwait(t) => BalanceAwait(s, t, r);
    }
  }

  // ---------------------------------------------------------------------------------------------
  // Runs
  // ---------------------------------------------------------------------------------------------

  /** After attach, with every semaphore at zero. */
  ghost predicate Initial(s: State) {
    && WellSized(s.d) && s.d.sema == map[]
    && (forall ch :: 0 <= ch < CHANNELS ==> !s.d.used[ch] && !s.d.running[ch] && !s.d.rawTfr[ch] && !s.d.rawErr[ch])
    && (forall t :: 0 <= t < |s.callers| ==> s.callers[t] == Caller([], {}))
  }

  predicate RunOk(s: State, es: seq<Event>)
    requires WellSized(s.d)
    decreases |es|
  {
    es == [] || (Enabled(s, es[0]) && RunOk(Apply(s, es[0]), es[1..]))
  }

  function Run(s: State, es: seq<Event>): (s': State)
    requires WellSized(s.d) && RunOk(s, es)
    ensures WellSized(s'.d) && |s'.callers| == |s.callers|
    decreases |es|
  {
    if es == [] then s else Run(Apply(s, es[0]), es[1..])
  }

  lemma InitialOk(s: State)
    requires Initial(s)
    ensures Inv(s)
  {
    forall t | 0 <= t < |s.callers|
      ensures TodoOk(s, t)
    {
      assert s.callers[t] == Caller([], {});
    }
    forall r: Role | r.dev < |s.callers|
      ensures Balanced(s, r)
    {
      assert s.callers[r.dev] == Caller([], {});
    }
    forall ch | 0 <= ch < CHANNELS
      ensures ChannelOk(s, ch)
    {
      var t := s.d.who[ch].dev;
      assert t < |s.callers| ==> s.callers[t] == Caller([], {});
    }
  }

  lemma {:induction false} RunKeeps(s: State, es: seq<Event>)
    requires Inv(s) && RunOk(s, es)
    ensures Inv(Run(s, es))
    decreases |es|
  {
    if es != [] {
      InvStep(s, es[0]);
      RunKeeps(Apply(s, es[0]), es[1..]);
    }
  }

  /** In every reachable state a taken channel has exactly one transfer outstanding, and a free one none. */
  lemma OneTransferPerChannel(s0: State, es: seq<Event>, ch: nat)
    requires Initial(s0) && RunOk(s0, es) && ch < CHANNELS
    ensures var s := Run(s0, es);
            Bit(Claimed(s, ch)) + Bit(s.d.running[ch]) + Bit(s.d.rawTfr[ch]) + Bit(s.d.rawErr[ch]) == Bit(s.d.used[ch])
  {
    InitialOk(s0);
    RunKeeps(s0, es);
    assert ChannelOk(Run(s0, es), ch);
  }

  /** A call that is over was refused nothing, has given every channel back and left its semaphores at zero. */
  lemma ReturnedClean(s0: State, es: seq<Event>, r: Role)
    requires Initial(s0) && RunOk(s0, es) && !r.kind.UartRx?
    requires r.dev < |Run(s0, es).callers| && Todo(Run(s0, es), r.dev) == []
    ensures var s := Run(s0, es);
            && r !in s.callers[r.dev].refused && Count(s.d, r) == 0
            && forall ch :: 0 <= ch < CHANNELS ==> !(s.d.used[ch] && s.d.who[ch] == r)
  {
    InitialOk(s0);
    RunKeeps(s0, es);
    CleanWhenOver(Run(s0, es), r);
  }

  lemma CleanWhenOver(s: State, r: Role)
    requires Inv(s) && !r.kind.UartRx? && r.dev < |s.callers| && Todo(s, r.dev) == []
    ensures r !in s.callers[r.dev].refused && Count(s.d, r) == 0
    ensures forall ch :: 0 <= ch < CHANNELS ==> !(s.d.used[ch] && s.d.who[ch] == r)
  {
    assert Balanced(s, r);
    forall ch | 0 <= ch < CHANNELS
      ensures !(s.d.used[ch] && s.d.who[ch] == r)
    {
      assert For(s.d, r, ch) == 0;
    }
  }

  /** A caller whose request was refused waits for a token that nobody will ever send: at the wait the
      semaphore is at zero with nothing outstanding. Otherwise the token is there or a transfer will send it. */
  lemma WaitEndsIffGranted(s0: State, es: seq<Event>, t: nat)
    requires Initial(s0) && RunOk(s0, es) && AtHead(Run(s0, es), t)
    requires Todo(Run(s0, es), t)[0].Await? && !Todo(Run(s0, es), t)[0].r.kind.UartRx?
    ensures var s := Run(s0, es);
            var r := Todo(s, t)[0].r;
            Count(s.d, r) + Outstanding(s.d, r) == if r in s.callers[t].refused then 0 else 1
  {
    var s := Run(s0, es);
    InitialOk(s0);
    RunKeeps(s0, es);
    assert TodoOk(s, t);
    var p := Todo(s, t);
    var r := p[0].r;
    assert Balanced(s, r) && Awaits(p, r) <= 1;
    NoTakeCounts(p, r);
  }

  /** Nothing anyone does unblocks it: from a state where caller `t` waits after a refusal, it waits in every
      later state. */
  lemma {:induction false} RefusedWaitsForever(s: State, es: seq<Event>, t: nat, r: Role)
    requires Inv(s) && RunOk(s, es) && AtHead(s, t) && Todo(s, t)[0] == Await(r) && !r.kind.UartRx?
    requires r in s.callers[t].refused
    ensures Run(s, es).callers[t] == s.callers[t]
    decreases |es|
  {
    if es != [] {
      var s' := Apply(s, es[0]);
      assert TodoOk(s, t) && Todo(s, t)[0].r.dev == t;
      assert Balanced(s, r) && Awaits(Todo(s, t), r) <= 1;
      InvStep(s, es[0]);
      assert s'.callers[t] == s.callers[t];
      RefusedWaitsForever(s', es[1..], t, r);
    }
  }

  // ---------------------------------------------------------------------------------------------
  // The driver's functions as steps
  // ---------------------------------------------------------------------------------------------

  lemma RunCons(s: State, e: Event, es: seq<Event>)
    requires WellSized(s.d) && Enabled(s, e) && RunOk(Apply(s, e), es)
    ensures RunOk(s, [e] + es) && Run(s, [e] + es) == Run(Apply(s, e), es)
  {
    assert ([e] + es)[1..] == es;
  }

  lemma {:induction false} RunAppend(s: State, a: seq<Event>, b: seq<Event>)
    requires WellSized(s.d) && RunOk(s, a) && RunOk(Run(s, a), b)
    ensures RunOk(s, a + b) && Run(s, a + b) == Run(Run(s, a), b)
    decreases |a|
  {
    if a == [] {
      assert a + b == b;
    } else {
      RunAppend(Apply(s, a[0]), a[1..], b);
      RunCons(s, a[0], a[1..] + b);
      assert a + b == [a[0]] + (a[1..] + b);
    }
  }

  /** One interrupt event for each channel below `n` with something pending. */
  function Interrupts(d: Dmac, n: nat): (es: seq<Event>)
    requires WellSized(d) && n <= CHANNELS
  {
    if n == 0 then [] else Interrupts(d, n - 1) + if Pending(d, n - 1) then [Interrupt(n - 1)] else []
  }

  /** `dw_dmac_irq_handler` is the run of the interrupts pending. */
  lemma {:induction false} IrqHandlerIsRun(s: State, n: nat)
    requires WellSized(s.d) && n <= CHANNELS
    ensures RunOk(s, Interrupts(s.d, n)) && Run(s, Interrupts(s.d, n)) == s.(d := IrqUpTo(s.d, n))
  {
    if n > 0 {
      IrqHandlerIsRun(s, n - 1);
      var s1 := s.(d := IrqUpTo(s.d, n - 1));
      LoopServes(s.d, n - 1);
      assert ChannelServed(s.d, s1.d, n - 1, n - 1);
      if Pending(s.d, n - 1) {
        RunCons(s1, Interrupt(n - 1), []);
        assert [Interrupt(n - 1)] + [] == [Interrupt(n - 1)];
        RunAppend(s, Interrupts(s.d, n - 1), [Interrupt(n - 1)]);
      } else {
        assert IrqChannel(s1.d, n - 1) == s1.d;
        assert Interrupts(s.d, n) == Interrupts(s.d, n - 1);
      }
    }
  }

  /** `dw_dmac_xfer`, for the widths and directions the clients ask for, is the two steps of a caller. */
  lemma XferIsRun(s: State, t: nat)
    requires WellSized(s.d) && AtHead(s, t) && Todo(s, t)[0].Take? && FirstFree(s.d.used, 0) < CHANNELS
    ensures RunOk(s, [DoTake(t), DoStart(t)])
    ensures var r := Todo(s, t)[0].r;
            && Run(s, [DoTake(t), DoStart(t)]).d == Started(Taken(s.d, r), r, FirstFree(s.d.used, 0))
            && Todo(Run(s, [DoTake(t), DoStart(t)]), t) == Todo(s, t)[1..]
  {
    var s1 := Apply(s, DoTake(t));
    RunCons(s1, DoStart(t), []);
    assert [DoStart(t)] + [] == [DoStart(t)];
    RunCons(s, DoTake(t), [DoStart(t)]);
    assert [DoTake(t)] + [DoStart(t)] == [DoTake(t), DoStart(t)];
  }

  // ---------------------------------------------------------------------------------------------
  // What a call does
  // ---------------------------------------------------------------------------------------------

  /** A step of a caller: it took a channel for `r`, was refused one, started the transfer, ended its wait. */
  datatype Act = Took(r: Role) | Refused(r: Role) | Began(r: Role) | Waited(r: Role)

  /** What event `e` is for caller `t`: nothing, or one act. */
  function ActOf(s: State, e: Event, t: nat): (a: seq<Act>)
    requires WellSized(s.d) && Enabled(s, e)
  {
    if e == DoTake(t) then
      if FirstFree(s.d.used, 0) < CHANNELS then [Took(Todo(s, t)[0].r)] else [Refused(Todo(s, t)[0].r)]
    else if e == DoStart(t) then [Began(Todo(s, t)[0].r)]
    else if e == DoAwait(t) then [Waited(Todo(s, t)[0].r)]
    else []
  }

  /** The acts of caller `t` in a run, in order. */
  function Acts(s: State, es: seq<Event>, t: nat): (a: seq<Act>)
    requires WellSized(s.d) && RunOk(s, es)
    decreases |es|
  {
    if es == [] then [] else ActOf(s, es[0], t) + Acts(Apply(s, es[0]), es[1..], t)
  }

  /** The acts that remain, if nothing more is refused. */
  function Ahead(todo: seq<Op>): (a: seq<Act>) {
    if todo == [] then []
    else (match todo[0]
          case Take(r) => [Took(r), Began(r)]
          case Start(r, _) => [Began(r)]
          case Await(r) => [Waited(r)]) + Ahead(todo[1..])
  }

  ghost predicate NoCallOf(es: seq<Event>, t: nat) {
    forall i :: 0 <= i < |es| ==> !(es[i].Call? && es[i].t == t)
  }

  /** A refusal is remembered until the next call. */
  lemma {:induction false} RefusalStays(s: State, es: seq<Event>, t: nat)
    requires WellSized(s.d) && RunOk(s, es) && t < |s.callers| && NoCallOf(es, t)
    ensures s.callers[t].refused <= Run(s, es).callers[t].refused
    decreases |es|
  {
    if es != [] {
      assert NoCallOf(es[1..], t) && !(es[0].Call? && es[0].t == t);
      RefusalStays(Apply(s, es[0]), es[1..], t);
    }
  }

  lemma OneAct(s: State, e: Event, t: nat)
    requires WellSized(s.d) && Enabled(s, e) && t < |s.callers| && !(e.Call? && e.t == t)
    requires Apply(s, e).callers[t].refused == {}
    ensures ActOf(s, e, t) + Ahead(Todo(Apply(s, e), t)) == Ahead(Todo(s, t))
  {
    var s' := Apply(s, e);
    var left := s'.callers[t].refused;
    if e == DoTake(t) {
      var r, ch := Todo(s, t)[0].r, FirstFree(s.d.used, 0);
      assert ch == CHANNELS ==> r in left;
      assert Todo(s', t)[0] == Start(r, ch) && Todo(s', t)[1..] == Todo(s, t)[1..];
    }
  }

  lemma Regroup(a: seq<Act>, b: seq<Act>, c: seq<Act>)
    ensures (a + b) + c == a + (b + c)
  {
  }

  /** A caller that is never refused acts as its call says, whatever happens in between. */
  lemma {:induction false} ActsAhead(s: State, es: seq<Event>, t: nat)
    requires WellSized(s.d) && RunOk(s, es) && t < |s.callers| && NoCallOf(es, t)
    requires Run(s, es).callers[t].refused == {}
    ensures Acts(s, es, t) + Ahead(Todo(Run(s, es), t)) == Ahead(Todo(s, t))
    decreases |es|
  {
    if es != [] {
      var s1 := Apply(s, es[0]);
      assert NoCallOf(es[1..], t) && !(es[0].Call? && es[0].t == t);
      RefusalStays(s1, es[1..], t);
      ActsAhead(s1, es[1..], t);
      OneAct(s, es[0], t);
      var act, rest, end := ActOf(s, es[0], t), Acts(s1, es[1..], t), Ahead(Todo(Run(s1, es[1..]), t));
      Regroup(act, rest, end);
    }
  }

  lemma StillNamed(s: State, e: Event, t: nat, roles: set<Role>)
    requires WellSized(s.d) && Enabled(s, e) && t < |s.callers| && !(e.Call? && e.t == t)
    requires s.callers[t].refused <= roles && forall i :: 0 <= i < |Todo(s, t)| ==> Todo(s, t)[i].r in roles
    ensures var s' := Apply(s, e);
            s'.callers[t].refused <= roles && forall i :: 0 <= i < |Todo(s', t)| ==> Todo(s', t)[i].r in roles
  {
    var s' := Apply(s, e);
    forall i | 0 <= i < |Todo(s', t)|
      ensures Todo(s', t)[i].r in roles
    {
      if Todo(s', t) != Todo(s, t) {
        assert i > 0 && |Todo(s', t)| == |Todo(s, t)| ==> Todo(s', t)[i] == Todo(s, t)[i];
        assert |Todo(s', t)| < |Todo(s, t)| ==> Todo(s', t)[i] == Todo(s, t)[i + 1];
        assert Todo(s, t)[0].r in roles;
      }
    }
  }

  /** Only roles a call names can be refused to it. */
  lemma {:induction false} RefusedIsNamed(s: State, es: seq<Event>, t: nat, roles: set<Role>)
    requires WellSized(s.d) && RunOk(s, es) && t < |s.callers| && NoCallOf(es, t)
    requires s.callers[t].refused <= roles && forall i :: 0 <= i < |Todo(s, t)| ==> Todo(s, t)[i].r in roles
    ensures Run(s, es).callers[t].refused <= roles
    decreases |es|
  {
    if es != [] {
      assert NoCallOf(es[1..], t) && !(es[0].Call? && es[0].t == t);
      StillNamed(s, es[0], t, roles);
      RefusedIsNamed(Apply(s, es[0]), es[1..], t, roles);
    }
  }

  /** A call that waits for all it asked for has acted, when it is over, exactly as it says. */
  lemma CallActs(s0: State, es: seq<Event>, t: nat, p: seq<Op>, es': seq<Event>, roles: set<Role>)
    requires Initial(s0) && RunOk(s0, es) && Enabled(Run(s0, es), Call(t, p)) && NoCallOf(es', t)
    requires RunOk(Apply(Run(s0, es), Call(t, p)), es') && Todo(Run(Apply(Run(s0, es), Call(t, p)), es'), t) == []
    requires forall i :: 0 <= i < |p| ==> p[i].r in roles
    requires forall r :: r in roles ==> r.dev == t && !r.kind.UartRx?
    ensures Acts(Apply(Run(s0, es), Call(t, p)), es', t) == Ahead(p)
  {
    var s := Apply(Run(s0, es), Call(t, p));
    var s' := Run(s, es');
    InitialOk(s0);
    RunKeeps(s0, es);
    InvStep(Run(s0, es), Call(t, p));
    RunKeeps(s, es');
    RefusedIsNamed(s, es', t, roles);
    forall r | r in roles
      ensures r !in s'.callers[t].refused
    {
      assert Balanced(s', r);
    }
    assert s'.callers[t].refused == {};
    ActsAhead(s, es', t);
  }

  /** `hgspi_dw_read` of a master, over every run: when it has returned it has taken and started one receive and one
      transmit channel, and waited for the transmit side before the receive side. */
  lemma MasterReadActs(s0: State, es: seq<Event>, t: nat, es': seq<Event>)
    requires Initial(s0) && RunOk(s0, es) && Enabled(Run(s0, es), Call(t, SpiRead(t, true))) && NoCallOf(es', t)
    requires RunOk(Apply(Run(s0, es), Call(t, SpiRead(t, true))), es')
    requires Todo(Run(Apply(Run(s0, es), Call(t, SpiRead(t, true))), es'), t) == []
    ensures var rx, tx := Role(SpiRx, t), Role(SpiTx, t);
            Acts(Apply(Run(s0, es), Call(t, SpiRead(t, true))), es', t)
            == [Took(rx), Began(rx), Took(tx), Began(tx), Waited(tx), Waited(rx)]
  {
    var rx, tx := Role(SpiRx, t), Role(SpiTx, t);
    var p := SpiRead(t, true);
    CallActs(s0, es, t, p, es', {rx, tx});
    AheadFour(Take(rx), Take(tx), Await(tx), Await(rx));
  }

  /** Of a slave: the receive channel alone. */
  lemma SlaveReadActs(s0: State, es: seq<Event>, t: nat, es': seq<Event>)
    requires Initial(s0) && RunOk(s0, es) && Enabled(Run(s0, es), Call(t, SpiRead(t, false))) && NoCallOf(es', t)
    requires RunOk(Apply(Run(s0, es), Call(t, SpiRead(t, false))), es')
    requires Todo(Run(Apply(Run(s0, es), Call(t, SpiRead(t, false))), es'), t) == []
    ensures var rx := Role(SpiRx, t);
            Acts(Apply(Run(s0, es), Call(t, SpiRead(t, false))), es', t) == [Took(rx), Began(rx), Waited(rx)]
  {
    CallActs(s0, es, t, SpiRead(t, false), es', {Role(SpiRx, t)});
    AheadTwo(Take(Role(SpiRx, t)), Await(Role(SpiRx, t)));
  }

  /** `hgspi_dw_write` and `hguart_puts`: one transmit channel, taken, started and waited for. */
  lemma WriteActs(s0: State, es: seq<Event>, t: nat, kind: Kind, es': seq<Event>)
    requires kind == SpiTx || kind == UartTx
    requires Initial(s0) && RunOk(s0, es) && Enabled(Run(s0, es), Call(t, Transmit(kind, t))) && NoCallOf(es', t)
    requires RunOk(Apply(Run(s0, es), Call(t, Transmit(kind, t))), es')
    requires Todo(Run(Apply(Run(s0, es), Call(t, Transmit(kind, t))), es'), t) == []
    ensures var tx := Role(kind, t);
            Acts(Apply(Run(s0, es), Call(t, Transmit(kind, t))), es', t) == [Took(tx), Began(tx), Waited(tx)]
  {
    CallActs(s0, es, t, Transmit(kind, t), es', {Role(kind, t)});
    AheadTwo(Take(Role(kind, t)), Await(Role(kind, t)));
  }

  lemma AheadTwo(a: Op, b: Op)
    requires a.Take? && b.Await?
    ensures Ahead([a, b]) == [Took(a.r), Began(a.r), Waited(b.r)]
  {
    assert [a, b][1..] == [b] && [b][1..] == [];
    assert Ahead([b]) == [Waited(b.r)];
  }

  lemma AheadFour(a: Op, b: Op, c: Op, d: Op)
    requires a.Take? && b.Take? && c.Await? && d.Await?
    ensures Ahead([a, b, c, d]) == [Took(a.r), Began(a.r), Took(b.r), Began(b.r), Waited(c.r), Waited(d.r)]
  {
    assert [a, b, c, d][1..] == [b, c, d] && [b, c, d][1..] == [c, d] && [c, d][1..] == [d] && [d][1..] == [];
    assert Ahead([d]) == [Waited(d.r)];
    assert Ahead([c, d]) == [Waited(c.r), Waited(d.r)];
    assert Ahead([b, c, d]) == [Took(b.r), Began(b.r), Waited(c.r), Waited(d.r)];
  }

  // ---------------------------------------------------------------------------------------------
  // A refused request happens
  // ---------------------------------------------------------------------------------------------

  /** A caller begins a write over SPI and asks for its channel. */
  lemma WriterAsks(s: State, t: nat)
    requires WellSized(s.d) && t < |s.callers| && Todo(s, t) == []
    ensures RunOk(s, [Call(t, Transmit(SpiTx, t)), DoTake(t)])
    ensures var r, ch := Role(SpiTx, t), FirstFree(s.d.used, 0);
            Run(s, [Call(t, Transmit(SpiTx, t)), DoTake(t)])
            == State(Taken(s.d, r), s.callers[t := if ch == CHANNELS then Caller([Await(r)], {r}) else Caller([Start(r, ch), Await(r)], {})])
  {
    var p, r, ch := Transmit(SpiTx, t), Role(SpiTx, t), FirstFree(s.d.used, 0);
    var s1 := Apply(s, Call(t, p));
    assert p[0] == Take(r) && p[1..] == [Await(r)];
    assert [Start(r, ch)] + p[1..] == [Start(r, ch), Await(r)];
    RunCons(s1, DoTake(t), []);
    assert [DoTake(t)] + [] == [DoTake(t)];
    RunCons(s, Call(t, p), [DoTake(t)]);
    assert [Call(t, p)] + [DoTake(t)] == [Call(t, p), DoTake(t)];
    assert s1.callers[t] == Caller(p, {}) && {} + {r} == {r};
    var c := if ch == CHANNELS then Caller([Await(r)], {r}) else Caller([Start(r, ch), Await(r)], {});
    assert Apply(s1, DoTake(t)).callers == s.callers[t := c];
  }

  lemma NextFree(used: seq<bool>, n: nat)
    requires n <= |used| && forall ch :: 0 <= ch < |used| ==> used[ch] == (ch < n)
    ensures FirstFree(used, 0) == n
  {
    var k := FirstFree(used, 0);
    assert k < |used| ==> !used[k];
    assert n < |used| ==> !used[n];
  }

  /** The first `n` of five writers have asked, and one by one have taken the channels. */
  lemma {:induction false} WritersAsk(s0: State, n: nat) returns (es: seq<Event>)
    requires Initial(s0) && |s0.callers| == CHANNELS + 1 && n <= CHANNELS
    ensures RunOk(s0, es)
    ensures var s := Run(s0, es);
            && (forall ch :: 0 <= ch < CHANNELS ==> s.d.used[ch] == (ch < n))
            && (forall t :: n <= t <= CHANNELS ==> s.callers[t] == s0.callers[t])
    decreases n
  {
    if n == 0 {
      es := [];
    } else {
      es := WritersAsk(s0, n - 1);
      var s := Run(s0, es);
      assert s.callers[n - 1] == s0.callers[n - 1] == Caller([], {});
      NextFree(s.d.used, n - 1);
      WriterAsks(s, n - 1);
      RunAppend(s0, es, [Call(n - 1, Transmit(SpiTx, n - 1)), DoTake(n - 1)]);
      es := es + [Call(n - 1, Transmit(SpiTx, n - 1)), DoTake(n - 1)];
    }
  }

  /** Five writers, four channels: the fifth is refused, and waits in every later state. */
  lemma RefusedWaitHappens(s0: State) returns (es: seq<Event>)
    requires Initial(s0) && |s0.callers| == CHANNELS + 1
    ensures RunOk(s0, es) && Run(s0, es).callers[CHANNELS] == Caller([Await(Role(SpiTx, CHANNELS))], {Role(SpiTx, CHANNELS)})
    ensures forall es' :: RunOk(Run(s0, es), es') ==> Run(Run(s0, es), es').callers[CHANNELS] == Run(s0, es).callers[CHANNELS]
  {
    var t := CHANNELS;
    es := WritersAsk(s0, CHANNELS);
    var s := Run(s0, es);
    assert s.callers[t] == s0.callers[t] == Caller([], {});
    NextFree(s.d.used, CHANNELS);
    WriterAsks(s, t);
    RunAppend(s0, es, [Call(t, Transmit(SpiTx, t)), DoTake(t)]);
    es := es + [Call(t, Transmit(SpiTx, t)), DoTake(t)];
    InitialOk(s0);
    RunKeeps(s0, es);
    forall es' | RunOk(Run(s0, es), es')
      ensures Run(Run(s0, es), es').callers[t] == Run(s0, es).callers[t]
    {
      RefusedWaitsForever(Run(s0, es), es', t, Role(SpiTx, t));
    }
  }
}
