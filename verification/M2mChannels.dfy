/** Concurrent callers of `hg_m2m_dma_xfer` (sdk/driver/dma/hg_m2m_dma.c): which transfer owns which
    channel, in every interleaving.

    Interrupts are off inside the two channel functions, so each is one event. Reading `ch0_lock` to pick
    the argument of `hg_m2m_dma_get_free_ch` happens before, as an event of its own. */
module M2mChannels {
  import opened M2mDma

  /** `left` is what remains of `retry`; `tries` counts attempts; `count` is the request's, kept as
      history. */
  datatype Pc =
    | Idle
    | Trying(m2m: bool, left: nat, tries: nat, count: nat)
    | Grabbing(m2m: bool, left: nat, tries: nat, count: nat, fix: nat)
    | GotZero(tries: nat, count: nat)
    | Moving(m2m: bool, ch: nat, tries: nat, count: nat)
    | Software(m2m: bool, tries: nat, count: nat)

  /** `owner` and `granted0` are history variables: who was granted each channel now taken, and whether
      some non-M2M transfer has ever been granted channel 0. */
  datatype State = State(busy: set<nat>, ch0Lock: bool, owner: map<nat, nat>, granted0: bool, pcs: seq<Pc>)

  datatype Event =
    | Call(t: nat, m2m: bool, count: nat)
    | Choose(t: nat)
    | Grab(t: nat)
    | SetLock(t: nat)
    | Finish(t: nat)

  predicate Enabled(s: State, e: Event) {
    && e.t < |s.pcs|
    && match e
       case Call(t, _, _) => s.pcs[t].Idle?
       case Choose(t) => s.pcs[t].Trying?
       case Grab(t) => s.pcs[t].Grabbing?
       case SetLock(t) => s.pcs[t].GotZero?
       case Finish(t) => s.pcs[t].Moving? || s.pcs[t].Software?
  }

  function Apply(s: State, e: Event): (s': State)
    requires Enabled(s, e)
    ensures |s'.pcs| == |s.pcs|
  {
    var pc := s.pcs[e.t];
    match e
    case Call(t, m2m, count) => s.(pcs := s.pcs[t := Trying(m2m, count / 256, 0, count)])
    case Choose(t) =>
      s.(pcs := s.pcs[t := Grabbing(pc.m2m, pc.left, pc.tries, pc.count,
                                    if !pc.m2m then 0 else if s.ch0Lock then 1 else HG_M2M_DMA_NUM)])
    case Grab(t) =>
      var ch := FreeChannel(s.busy, pc.fix);
      if ch >= 0 then
        s.(busy := s.busy + {ch},
           owner := s.owner[ch := t],
           granted0 := s.granted0 || (!pc.m2m && ch == 0),
           pcs := s.pcs[t := if !pc.m2m then GotZero(pc.tries + 1, pc.count)
                             else Moving(true, ch, pc.tries + 1, pc.count)])
      else if pc.left > 0 then
        s.(pcs := s.pcs[t := Trying(pc.m2m, pc.left - 1, pc.tries + 1, pc.count)])
      else
        s.(pcs := s.pcs[t := Software(pc.m2m, pc.tries + 1, pc.count)])
    case SetLock(t) => s.(ch0Lock := true, pcs := s.pcs[t := Moving(false, 0, pc.tries, pc.count)])
    case Finish(t) =>
      if pc.Moving? then s.(busy := s.busy - {pc.ch}, owner := s.owner - {pc.ch}, pcs := s.pcs[t := Idle]) else s.(pcs := s.pcs[t := Idle])
  }

  /** A transfer at this point owns channel `ch`. */
  predicate Owns(pc: Pc, ch: nat) {
    (pc.Moving? && pc.ch == ch) || (pc.GotZero? && ch == 0)
  }

  /** Attempts made and attempts left add up to the bound, and channels are picked as the driver says. */
  ghost predicate Bounded(pc: Pc) {
    match pc
    case Idle => true
    case Trying(_, left, tries, count) => tries + left == count / 256
    case Grabbing(m2m, left, tries, count, fix) => tries + left == count / 256 && (m2m <==> fix != 0) && fix <= HG_M2M_DMA_NUM
    case GotZero(tries, count) => 1 <= tries <= count / 256 + 1
    case Moving(m2m, ch, tries, count) => 1 <= tries <= count / 256 + 1 && ch < 2 && (!m2m ==> ch == 0)
    case Software(_, tries, count) => tries == count / 256 + 1
  }

  ghost predicate ThreadOk(s: State, t: nat)
    requires t < |s.pcs|
  {
    && Bounded(s.pcs[t])
    && (forall ch: nat {:trigger Owns(s.pcs[t], ch)} :: Owns(s.pcs[t], ch) ==> ch in s.owner && s.owner[ch] == t)
  }

  ghost predicate Inv(s: State) {
    && s.busy == s.owner.Keys
    && (forall ch {:trigger s.owner[ch]} :: ch in s.owner ==> s.owner[ch] < |s.pcs| && Owns(s.pcs[s.owner[ch]], ch))
    && (forall t {:trigger ThreadOk(s, t)} :: 0 <= t < |s.pcs| ==> ThreadOk(s, t))
    // until the lock is set, the transfer about to set it still has channel 0
    && (s.granted0 && !s.ch0Lock ==> 0 in s.owner && s.pcs[s.owner[0]].GotZero?)
    && (s.ch0Lock ==> s.granted0)
    && (0 in s.owner && s.pcs[s.owner[0]].GotZero? ==> s.granted0)
  }

  lemma SelfStep(s: State, e: Event)
    requires Inv(s) && Enabled(s, e)
    ensures ThreadOk(Apply(s, e), e.t)
  {
    assert ThreadOk(s, e.t);
    assert s.pcs[e.t].GotZero? ==> Owns(s.pcs[e.t], 0);
  }

  lemma OtherStep(s: State, e: Event, t: nat)
    requires Inv(s) && Enabled(s, e) && t < |s.pcs| && t != e.t
    ensures ThreadOk(Apply(s, e), t)
  {
    var s' := Apply(s, e);
    assert ThreadOk(s, e.t) && ThreadOk(s, t) && s'.pcs[t] == s.pcs[t];
    assert s.pcs[e.t].Moving? ==> Owns(s.pcs[e.t], s.pcs[e.t].ch);
    forall ch: nat | Owns(s'.pcs[t], ch)
      ensures ch in s'.owner && s'.owner[ch] == t
    {
      assert Owns(s.pcs[t], ch);
    }
  }

  lemma OwnerStep(s: State, e: Event, ch: nat)
    requires Inv(s) && Enabled(s, e) && ch in Apply(s, e).owner
    ensures var s' := Apply(s, e); s'.owner[ch] < |s'.pcs| && Owns(s'.pcs[s'.owner[ch]], ch)
  {
    assert ThreadOk(s, e.t);
    assert ch in s.owner ==> Owns(s.pcs[s.owner[ch]], ch);
  }

  lemma InvStep(s: State, e: Event)
    requires Inv(s) && Enabled(s, e)
    ensures Inv(Apply(s, e))
  {
    var s' := Apply(s, e);
    assert ThreadOk(s, e.t);
    forall t | 0 <= t < |s'.pcs|
      ensures ThreadOk(s', t)
    {
      if t == e.t {
        SelfStep(s, e);
      } else {
        OtherStep(s, e, t);
      }
    }
    forall ch | ch in s'.owner
      ensures s'.owner[ch] < |s'.pcs| && Owns(s'.pcs[s'.owner[ch]], ch)
    {
      OwnerStep(s, e, ch);
    }
    LockStep(s, e);
  }

  /** The window between granting channel 0 and setting the lock stays covered. */
  lemma LockStep(s: State, e: Event)
    requires Inv(s) && Enabled(s, e)
    ensures var s' := Apply(s, e);
            && (s'.granted0 && !s'.ch0Lock ==> 0 in s'.owner && s'.owner[0] < |s'.pcs| && s'.pcs[s'.owner[0]].GotZero?)
            && (s'.ch0Lock ==> s'.granted0)
            && (0 in s'.owner && s'.owner[0] < |s'.pcs| && s'.pcs[s'.owner[0]].GotZero? ==> s'.granted0)
  {
    assert ThreadOk(s, e.t);
    assert s.pcs[e.t].GotZero? ==> Owns(s.pcs[e.t], 0);
    assert s.pcs[e.t].Moving? ==> Owns(s.pcs[e.t], s.pcs[e.t].ch);
  }

  ghost predicate Initial(s: State) {
    s.busy == {} && s.owner == map[] && !s.ch0Lock && !s.granted0 && forall t :: 0 <= t < |s.pcs| ==> s.pcs[t].Idle?
  }

  predicate RunOk(s: State, es: seq<Event>)
    decreases |es|
  {
    es == [] || (Enabled(s, es[0]) && RunOk(Apply(s, es[0]), es[1..]))
  }

  function Run(s: State, es: seq<Event>): (s': State)
    requires RunOk(s, es)
    ensures |s'.pcs| == |s.pcs|
    decreases |es|
  {
    if es == [] then s else Run(Apply(s, es[0]), es[1..])
  }

  lemma {:induction false} RunKeeps(s: State, es: seq<Event>)
    requires Inv(s) && RunOk(s, es)
    ensures Inv(Run(s, es))
    decreases |es|
  {
    if es != [] {
      InvStep(s, es[0]);
      RunKeeps(Apply(s, es[0]), es[1..]);
    }
  }

  lemma InitialOk(s: State)
    requires Initial(s)
    ensures Inv(s)
  {
    forall t | 0 <= t < |s.pcs|
      ensures ThreadOk(s, t)
    {
      assert s.pcs[t].Idle?;
    }
  }

  /** In every reachable state a busy bit is set exactly while a transfer owns the channel. */
  lemma BusyIffOwned(s0: State, es: seq<Event>, ch: nat)
    requires Initial(s0) && RunOk(s0, es)
    ensures var s := Run(s0, es); ch in s.busy <==> exists v :: 0 <= v < |s.pcs| && Owns(s.pcs[v], ch)
  {
    var s := Run(s0, es);
    InitialOk(s0);
    RunKeeps(s0, es);
    if ch in s.busy {
      assert Owns(s.pcs[s.owner[ch]], ch);
    }
    if v :| 0 <= v < |s.pcs| && Owns(s.pcs[v], ch) {
      assert ThreadOk(s, v);
    }
  }

  /** Two transfers never own the same channel. */
  lemma OneOwner(s0: State, es: seq<Event>, ch: nat, t: nat, u: nat)
    requires Initial(s0) && RunOk(s0, es) && t < |Run(s0, es).pcs| && u < |Run(s0, es).pcs|
    requires Owns(Run(s0, es).pcs[t], ch) && Owns(Run(s0, es).pcs[u], ch)
    ensures t == u
  {
    InitialOk(s0);
    RunKeeps(s0, es);
    assert ThreadOk(Run(s0, es), t) && ThreadOk(Run(s0, es), u);
  }

  /** When every caller is back, every channel is free: each way out of a transfer returns what it took. */
  lemma AllReturned(s0: State, es: seq<Event>)
    requires Initial(s0) && RunOk(s0, es) && forall t :: 0 <= t < |Run(s0, es).pcs| ==> Run(s0, es).pcs[t].Idle?
    ensures Run(s0, es).busy == {}
  {
    forall ch: nat
      ensures ch !in Run(s0, es).busy
    {
      BusyIffOwned(s0, es, ch);
    }
  }

  /** No transfer makes more than `(count >> 8) + 1` attempts. */
  lemma AttemptsBounded(s0: State, es: seq<Event>, t: nat)
    requires Initial(s0) && RunOk(s0, es) && t < |Run(s0, es).pcs| && !Run(s0, es).pcs[t].Idle?
    ensures Run(s0, es).pcs[t].tries <= Run(s0, es).pcs[t].count / 256 + 1
  {
    InitialOk(s0);
    RunKeeps(s0, es);
    assert ThreadOk(Run(s0, es), t);
  }

  /** What a caller is at until it is back: the transfer it asked for. */
  predicate Serving(pc: Pc, m2m: bool, count: nat) {
    pc.Idle? || (pc.count == count && if pc.GotZero? then !m2m else pc.m2m == m2m)
  }

  lemma {:induction false} ServesTheCall(s: State, es: seq<Event>, t: nat, m2m: bool, count: nat)
    requires t < |s.pcs| && Serving(s.pcs[t], m2m, count) && RunOk(s, es)
    requires forall i :: 0 <= i < |es| ==> !(es[i].Call? && es[i].t == t)
    ensures Serving(Run(s, es).pcs[t], m2m, count)
    decreases |es|
  {
    if es != [] {
      ServesTheCall(Apply(s, es[0]), es[1..], t, m2m, count);
    }
  }

  /** A caller that asks for `count` bytes makes no more than `(count >> 8) + 1` attempts before it is back. */
  lemma AttemptsOfCall(s0: State, es: seq<Event>, t: nat, m2m: bool, count: nat, es': seq<Event>)
    requires Initial(s0) && RunOk(s0, es) && Enabled(Run(s0, es), Call(t, m2m, count))
    requires RunOk(Apply(Run(s0, es), Call(t, m2m, count)), es')
    requires forall i :: 0 <= i < |es'| ==> !(es'[i].Call? && es'[i].t == t)
    ensures var pc := Run(Apply(Run(s0, es), Call(t, m2m, count)), es').pcs[t];
            !pc.Idle? ==> pc.tries <= count / 256 + 1 && if pc.GotZero? then !m2m else pc.m2m == m2m
  {
    InitialOk(s0);
    RunKeeps(s0, es);
    AttemptsFrom(Run(s0, es), t, m2m, count, es');
  }

  lemma AttemptsFrom(s: State, t: nat, m2m: bool, count: nat, es: seq<Event>)
    requires Inv(s) && Enabled(s, Call(t, m2m, count)) && RunOk(Apply(s, Call(t, m2m, count)), es)
    requires forall i :: 0 <= i < |es| ==> !(es[i].Call? && es[i].t == t)
    ensures var pc := Run(Apply(s, Call(t, m2m, count)), es).pcs[t];
            !pc.Idle? ==> pc.tries <= count / 256 + 1 && if pc.GotZero? then !m2m else pc.m2m == m2m
  {
    var s1 := Apply(s, Call(t, m2m, count));
    InvStep(s, Call(t, m2m, count));
    RunKeeps(s1, es);
    ServesTheCall(s1, es, t, m2m, count);
    if !Run(s1, es).pcs[t].Idle? {
      BoundedTries(Run(s1, es), t);
    }
  }

  lemma BoundedTries(s: State, t: nat)
    requires Inv(s) && t < |s.pcs| && !s.pcs[t].Idle?
    ensures s.pcs[t].tries <= s.pcs[t].count / 256 + 1
  {
    assert ThreadOk(s, t);
  }

  /** A thread that read `ch0_lock` before it was set and has not used the answer yet. */
  predicate StaleChoice(s: State, t: nat)
    requires t < |s.pcs|
  {
    s.pcs[t].Grabbing? && s.pcs[t].fix == HG_M2M_DMA_NUM && s.ch0Lock
  }

  /** Once a non-M2M transfer has been granted channel 0, an M2M transfer gets it exactly when it acts on a
      reading of `ch0_lock` that is out of date, finds channel 1 taken and channel 0 free. */
  lemma ZeroAfterGrantIffStale(s0: State, es: seq<Event>, t: nat)
    requires Initial(s0) && RunOk(s0, es) && Enabled(Run(s0, es), Grab(t))
    requires Run(s0, es).pcs[t].m2m && Run(s0, es).granted0
    ensures var s := Run(s0, es);
            Owns(Apply(s, Grab(t)).pcs[t], 0) <==> StaleChoice(s, t) && 1 in s.busy && 0 !in s.busy
  {
    InitialOk(s0);
    RunKeeps(s0, es);
    assert ThreadOk(Run(s0, es), t);
  }

  /** So when reading the flag and grabbing the channel are one step, it never happens again. */
  lemma NeverZeroAfterGrant(s0: State, es: seq<Event>, t: nat)
    requires Initial(s0) && RunOk(s0, es) && Enabled(Run(s0, es), Choose(t))
    requires Run(s0, es).pcs[t].m2m && Run(s0, es).granted0
    ensures var s := Apply(Run(s0, es), Choose(t));
            Enabled(s, Grab(t)) && !Owns(Apply(s, Grab(t)).pcs[t], 0)
  {
    var s := Run(s0, es);
    InitialOk(s0);
    RunKeeps(s0, es);
    InvStep(s, Choose(t));
    var s' := Apply(s, Choose(t));
    assert ThreadOk(s', t) && ThreadOk(s, t);
    assert s'.pcs[t].m2m && s'.granted0;
  }

  lemma RunCons(s: State, e: Event, es: seq<Event>)
    requires Enabled(s, e) && RunOk(Apply(s, e), es)
    ensures RunOk(s, [e] + es) && Run(s, [e] + es) == Run(Apply(s, e), es)
  {
    assert ([e] + es)[1..] == es;
  }

  lemma {:induction false} RunAppend(s: State, a: seq<Event>, b: seq<Event>)
    requires RunOk(s, a) && RunOk(Run(s, a), b)
    ensures RunOk(s, a + b) && Run(s, a + b) == Run(Run(s, a), b)
    decreases |a|
  {
    if a == [] {
      assert a + b == b;
    } else {
      RunAppend(Apply(s, a[0]), a[1..], b);
      RunCons(s, a[0], a[1..] + b);
      assert a + b == [a[0]] + (a[1..] + b);
    }
  }

  /** Caller `t` begins a short transfer and picks its channels. */
  lemma Asking(s: State, t: nat, m2m: bool)
    requires t < |s.pcs| && s.pcs[t].Idle?
    ensures RunOk(s, [Call(t, m2m, 0), Choose(t)])
    ensures Run(s, [Call(t, m2m, 0), Choose(t)])
         == s.(pcs := s.pcs[t := Grabbing(m2m, 0, 0, 0, if !m2m then 0 else if s.ch0Lock then 1 else HG_M2M_DMA_NUM)])
  {
    var s1 := Apply(s, Call(t, m2m, 0));
    RunCons(s1, Choose(t), []);
    assert [Choose(t)] + [] == [Choose(t)];
    RunCons(s, Call(t, m2m, 0), [Choose(t)]);
    assert [Call(t, m2m, 0)] + [Choose(t)] == [Call(t, m2m, 0), Choose(t)];
  }

  /** A non-M2M transfer on a free channel 0 runs to its end. */
  lemma Passing(s: State, t: nat)
    requires t < |s.pcs| && s.pcs[t] == Grabbing(false, 0, 0, 0, 0) && s.busy == {} && s.owner == map[]
    ensures RunOk(s, [Grab(t), SetLock(t), Finish(t)])
    ensures Run(s, [Grab(t), SetLock(t), Finish(t)])
         == State({}, true, map[], true, s.pcs[t := Idle])
  {
    var s1 := Apply(s, Grab(t));
    var s2 := Apply(s1, SetLock(t));
    RunCons(s2, Finish(t), []);
    assert [Finish(t)] + [] == [Finish(t)];
    RunCons(s1, SetLock(t), [Finish(t)]);
    assert [SetLock(t)] + [Finish(t)] == [SetLock(t), Finish(t)];
    RunCons(s, Grab(t), [SetLock(t), Finish(t)]);
    assert [Grab(t)] + [SetLock(t), Finish(t)] == [Grab(t), SetLock(t), Finish(t)];
    assert Apply(s2, Finish(t)).busy == {} && Apply(s2, Finish(t)).owner == map[];
  }

  /** The out-of-date reading does happen: caller 0 picks its channels, a non-M2M transfer of caller 1 comes
      and goes, caller 2 takes channel 1, and caller 0 is then granted channel 0. */
  lemma StaleChoiceHappens() returns (s0: State, es: seq<Event>)
    ensures Initial(s0) && RunOk(s0, es) && Enabled(Run(s0, es), Grab(0))
    ensures Run(s0, es).granted0 && Run(s0, es).pcs[0].m2m && Owns(Apply(Run(s0, es), Grab(0)).pcs[0], 0)
  {
    var picked, asked, next := [Call(0, true, 0), Choose(0)], [Call(1, false, 0), Choose(1)], [Call(2, true, 0), Choose(2)];
    s0 := State({}, false, map[], false, [Idle, Idle, Idle]);
    Asking(s0, 0, true);
    var a := Run(s0, picked);
    Asking(a, 1, false);
    RunAppend(s0, picked, asked);
    es := picked + asked;
    var b := Run(s0, es);
    Passing(b, 1);
    RunAppend(s0, es, [Grab(1), SetLock(1), Finish(1)]);
    es := es + [Grab(1), SetLock(1), Finish(1)];
    var c := Run(s0, es);
    Asking(c, 2, true);
    RunAppend(s0, es, next);
    es := es + next;
    var d := Run(s0, es);
    assert d.busy == {} && d.pcs[2] == Grabbing(true, 0, 0, 0, 1) && d.pcs[0] == Grabbing(true, 0, 0, 0, HG_M2M_DMA_NUM);
    RunCons(d, Grab(2), []);
    assert [Grab(2)] + [] == [Grab(2)];
    RunAppend(s0, es, [Grab(2)]);
    es := es + [Grab(2)];
    assert Run(s0, es).busy == {1};
  }
}
