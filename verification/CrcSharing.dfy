/** Threads sharing the CRC unit through its hold protocol (sdk/driver/crc/hg_crc.c).

    Every access to the shared state is one event: a section under `lock`, taking the `hold` mutex, a
    group of register writes, the engine's completion interrupt, a wait that ends. A run is any
    interleaving of the events of any number of threads. */
module CrcSharing {
  import opened Bits
  import opened CrcUnit

  /** A validated `hg_crc_calc` request; `presented` is the cookie it came with. */
  datatype Job = Job(cfg: Config, data: seq<Byte>, cont: bool, presented: Half)

  datatype Pc =
    | Ready
    | HoldWait(want: Option<Job>)
    | HoldGot(want: Option<Job>)
    | Program(job: Job, keep: bool)
    | Kick(job: Job, keep: bool)
    | Wait(job: Job, keep: bool)
    | Fetch(job: Job, keep: bool, ok: bool)
    | AutoRelease(job: Job, ok: bool)

  /** What a session has summed so far: the configuration of its last fresh calculation, and all data since. A
      session opens when a fresh calculation finds the semaphore empty, and ends with a wait that gives up. */
  datatype Stream = Stream(cfg: Config, data: seq<Byte>)

  /** A thread comes with one cookie of its own. `session` and `before`, the CRC_OUT its last
      calculation found, are history variables; the driver does not read them. */
  datatype Thread = Thread(pc: Pc, cookie: Half, session: Option<Stream>, before: Word, ret: int, value: Word)

  datatype State = State(dev: Dev, threads: seq<Thread>)

  datatype Event =
    | CallHold(t: nat)
    | CallCalc(t: nat, type_: nat, data: seq<Byte>, cont: bool)
    | TakeHold(t: nat)
    | HoldTimeout(t: nat)
    | SetCookie(t: nat, jiffies: Half)
    | WriteRegs(t: nat)
    | StartDma(t: nat)
    | EngineDone
    | Wake(t: nat)
    | WaitTimeout(t: nat)
    | ReadOut(t: nat)
    | EndCalc(t: nat)
    | CallUnhold(t: nat)

  function PcOf(s: State, t: nat): Pc
    requires t < |s.threads|
  {
    s.threads[t].pc
  }

  /** A cookie is fresh for `t` when no other thread has it in hand. */
  ghost predicate Fresh(s: State, t: nat, c: Half) {
    forall u {:trigger s.threads[u]} :: 0 <= u < |s.threads| && u != t ==> s.threads[u].cookie != c
  }

  ghost predicate Enabled(s: State, e: Event) {
    match e
    case CallHold(t) => t < |s.threads| && PcOf(s, t).Ready?
    case CallCalc(t, _, _, _) => t < |s.threads| && PcOf(s, t).Ready?
    case TakeHold(t) => t < |s.threads| && PcOf(s, t).HoldWait? && MayLock(s.dev, t)
    case HoldTimeout(t) => t < |s.threads| && PcOf(s, t).HoldWait?
    case SetCookie(t, j) => t < |s.threads| && PcOf(s, t).HoldGot?
    case WriteRegs(t) => t < |s.threads| && PcOf(s, t).Program?
    case StartDma(t) => t < |s.threads| && PcOf(s, t).Kick?
    case EngineDone => s.dev.engine.Running?
    case Wake(t) => t < |s.threads| && PcOf(s, t).Wait? && s.dev.done > 0
    case WaitTimeout(t) => t < |s.threads| && PcOf(s, t).Wait? && s.dev.done == 0
    case ReadOut(t) => t < |s.threads| && PcOf(s, t).Fetch?
    case EndCalc(t) => t < |s.threads| && PcOf(s, t).AutoRelease?
    case CallUnhold(t) => t < |s.threads| && PcOf(s, t).Ready?
  }

  /** The two rules callers and the clock must keep: nobody releases a unit held by somebody else, and cookies
      are fresh. */
  ghost predicate Disciplined(s: State, e: Event) {
    && (e.CallUnhold? && e.t < |s.threads| ==> Presents(s.dev, s.threads[e.t].cookie) || !s.dev.flagHold)
    && (e.SetCookie? ==> Fresh(s, e.t, e.jiffies))
  }

  function Put(s: State, t: nat, th: Thread, dev: Dev): State
    requires t < |s.threads|
  {
    s.(dev := dev, threads := s.threads[t := th])
  }

  /** The rest of a release: the caller's cookie is overwritten with the unit's, whether or not it released. */
  function Unheld(s: State, t: nat): State
    requires t < |s.threads|
  {
    var th := s.threads[t];
    var dev := Released(s.dev, t, th.cookie);
    Put(s, t, th.(pc := Ready, cookie := dev.cookie, session := None,
                  ret := if Presents(s.dev, th.cookie) then RET_OK else RET_ERR), dev)
  }

  function Apply(up: Update, s: State, e: Event): (s': State)
    requires Enabled(s, e)
    ensures |s'.threads| == |s.threads|
  {
    match e
    case CallHold(t) =>
      var th := s.threads[t];
      Put(s, t, if Presents(s.dev, th.cookie) then th.(ret := RET_OK) else th.(pc := HoldWait(None)), s.dev)
    case CallCalc(t, type_, data, cont) =>
      var th := s.threads[t];
      if data == [] || type_ >= |CONFIGS| then Put(s, t, th.(ret := RET_ERR), s.dev)
      else
        var job := Job(CONFIGS[type_], data, cont, th.cookie);
        Put(s, t, th.(pc := if Presents(s.dev, th.cookie) then Program(job, true) else HoldWait(Some(job))), s.dev)
    case TakeHold(t) =>
      var th := s.threads[t];
      Put(s, t, th.(pc := HoldGot(th.pc.want)), Acquired(s.dev, t))
    case HoldTimeout(t) =>
      Put(s, t, s.threads[t].(pc := Ready, ret := -EBUSY), s.dev)
    case SetCookie(t, j) =>
      var th := s.threads[t];
      var pc := if th.pc.want.None? then Ready else Program(th.pc.want.value, j == th.pc.want.value.presented);
      Put(s, t, th.(pc := pc, cookie := j, session := None, ret := RET_OK), CookieSet(s.dev, j))
    case WriteRegs(t) =>
      var th := s.threads[t];
      var job := th.pc.job;
      Put(s, t, th.(pc := Kick(job, th.pc.keep), before := s.dev.out, session := if job.cont then th.session else if s.dev.done == 0 then Some(Stream(job.cfg, [])) else None),
          if job.cont then ProgrammedContinue(s.dev) else ProgrammedFresh(s.dev, job.cfg))
    case StartDma(t) =>
      var th := s.threads[t];
      Put(s, t, th.(pc := Wait(th.pc.job, th.pc.keep)), Kicked(s.dev, th.pc.job.data))
    case EngineDone => s.(dev := Completed(up, s.dev))
    case Wake(t) =>
      var th := s.threads[t];
      Put(s, t, th.(pc := Fetch(th.pc.job, th.pc.keep, true)), s.dev.(done := s.dev.done - 1))
    case WaitTimeout(t) =>
      var th := s.threads[t];
      Put(s, t, th.(pc := Fetch(th.pc.job, th.pc.keep, false), session := None), s.dev)
    case ReadOut(t) =>
      var th := s.threads[t];
      var Fetch(job, keep, ok) := th.pc;
      var session := if ok && th.session.Some?
                     then Some(Stream(th.session.value.cfg, th.session.value.data + job.data)) else None;
      Put(s, t, th.(pc := if job.cont || keep then Ready else AutoRelease(job, ok), value := s.dev.out, session := session,
                    ret := if ok then RET_OK else RET_ERR), s.dev)
    case EndCalc(t) =>
      Unheld(s, t).(threads := s.threads[t := Unheld(s, t).threads[t].(ret := if PcOf(s, t).ok then RET_OK else RET_ERR)])
    case CallUnhold(t) => Unheld(s, t)
  }

  // ---------------------------------------------------------------------------------------------
  // Who may touch the unit
  // ---------------------------------------------------------------------------------------------

  /** Between entering the unit and leaving it: the register accesses of a calculation. */
  predicate InUnit(pc: Pc) {
    pc.Program? || pc.Kick? || pc.Wait? || pc.Fetch? || pc.AutoRelease?
  }

  ghost predicate Owns(s: State, t: nat)
    requires t < |s.threads|
  {
    InUnit(PcOf(s, t)) || Presents(s.dev, s.threads[t].cookie)
  }

  ghost predicate ThreadOk(s: State, t: nat)
    requires t < |s.threads|
  {
    var th := s.threads[t];
    && (InUnit(th.pc) ==> Presents(s.dev, th.cookie))
    && (th.pc.HoldWait? ==> !Presents(s.dev, th.cookie))
    && (th.pc.HoldGot? ==> s.dev.holder == Some(t) && !s.dev.flagHold)
    && (Presents(s.dev, th.cookie) ==> s.dev.holder == Some(t))
    && (s.dev.holder == Some(t) ==> th.pc.HoldGot? || Presents(s.dev, th.cookie))
    && KeepOk(th)
  }

  /** Whether a calculation keeps the unit is whether its cookie is the one it came with. */
  predicate KeepOk(th: Thread) {
    && (th.pc.Program? || th.pc.Kick? || th.pc.Wait? || th.pc.Fetch? ==> th.pc.keep == (th.cookie == th.pc.job.presented))
    && (th.pc.AutoRelease? ==> !th.pc.job.cont && th.cookie != th.pc.job.presented)
  }

  ghost predicate Protocol(s: State) {
    && s.dev.nested == 0
    && (s.dev.flagHold ==> s.dev.holder.Some?)
    && (s.dev.holder.Some? ==> s.dev.holder.value < |s.threads|)
    && (forall t {:trigger ThreadOk(s, t)} :: 0 <= t < |s.threads| ==> ThreadOk(s, t))
  }

  /** Two threads never own the unit together, and HOLD is only ever set while the mutex is taken. */
  lemma MutualExclusion(s: State, t: nat, u: nat)
    requires Protocol(s) && t < |s.threads| && u < |s.threads| && Owns(s, t) && Owns(s, u)
    ensures t == u && s.dev.holder == Some(t) && s.dev.flagHold
  {
    assert ThreadOk(s, t) && ThreadOk(s, u);
  }

  lemma ProtocolStep(up: Update, s: State, e: Event)
    requires Protocol(s) && Enabled(s, e) && Disciplined(s, e)
    ensures Protocol(Apply(up, s, e))
  {
    match e
    case EngineDone => StepOfEngine(up, s);
    case SetCookie(t, j) => StepOfCookie(up, s, t, j);
    case TakeHold(t) => StepOfTake(up, s, t);
    case CallUnhold(t) => StepOfRelease(up, s, t);
    case EndCalc(t) => StepOfEnd(up, s, t);
    case _ => StepInside(up, s, e);
  }

  lemma StepOfEngine(up: Update, s: State)
    requires Protocol(s) && Enabled(s, EngineDone)
    ensures Protocol(Apply(up, s, EngineDone))
  {
    forall u | 0 <= u < |s.threads|
      ensures ThreadOk(Apply(up, s, EngineDone), u)
    {
      assert ThreadOk(s, u);
    }
  }

  lemma StepOfCookie(up: Update, s: State, t: nat, j: Half)
    requires Protocol(s) && Enabled(s, SetCookie(t, j)) && Fresh(s, t, j)
    ensures Protocol(Apply(up, s, SetCookie(t, j)))
  {
    assert ThreadOk(s, t);
    forall u | 0 <= u < |s.threads|
      ensures ThreadOk(Apply(up, s, SetCookie(t, j)), u)
    {
      assert ThreadOk(s, u);
      assert u != t ==> s.threads[u].cookie != j;
    }
  }

  lemma StepOfTake(up: Update, s: State, t: nat)
    requires Protocol(s) && Enabled(s, TakeHold(t))
    ensures Protocol(Apply(up, s, TakeHold(t)))
  {
    assert ThreadOk(s, t);
    forall u | 0 <= u < |s.threads|
      ensures ThreadOk(Apply(up, s, TakeHold(t)), u)
    {
      assert ThreadOk(s, u);
    }
  }

  lemma StepOfRelease(up: Update, s: State, t: nat)
    requires Protocol(s) && Enabled(s, CallUnhold(t))
    requires Presents(s.dev, s.threads[t].cookie) || !s.dev.flagHold
    ensures Protocol(Apply(up, s, CallUnhold(t)))
  {
    assert ThreadOk(s, t);
    forall u | 0 <= u < |s.threads|
      ensures ThreadOk(Apply(up, s, CallUnhold(t)), u)
    {
      assert ThreadOk(s, u);
    }
  }

  lemma StepOfEnd(up: Update, s: State, t: nat)
    requires Protocol(s) && Enabled(s, EndCalc(t))
    ensures Protocol(Apply(up, s, EndCalc(t)))
  {
    assert ThreadOk(s, t);
    forall u | 0 <= u < |s.threads|
      ensures ThreadOk(Apply(up, s, EndCalc(t)), u)
    {
      assert ThreadOk(s, u);
    }
  }

  /** Events that move one thread and change neither mutex, flag nor cookie. */
  lemma StepInside(up: Update, s: State, e: Event)
    requires Protocol(s) && Enabled(s, e)
    requires !e.EngineDone? && !e.SetCookie? && !e.TakeHold? && !e.CallUnhold? && !e.EndCalc?
    ensures Protocol(Apply(up, s, e))
  {
    var s' := Apply(up, s, e);
    assert ThreadOk(s, e.t);
    StepInsideFrame(up, s, e);
    assert ThreadOk(s', e.t);
    forall u | 0 <= u < |s.threads|
      ensures ThreadOk(s', u)
    {
      assert ThreadOk(s, u);
    }
  }

  lemma StepInsideFrame(up: Update, s: State, e: Event)
    requires Enabled(s, e) && !e.EngineDone? && !e.SetCookie? && !e.TakeHold? && !e.CallUnhold? && !e.EndCalc?
    ensures var d, d' := s.dev, Apply(up, s, e).dev;
            d'.holder == d.holder && d'.nested == d.nested && d'.flagHold == d.flagHold && d'.cookie == d.cookie
    ensures Apply(up, s, e).threads == s.threads[e.t := Apply(up, s, e).threads[e.t]]
    ensures Apply(up, s, e).threads[e.t].cookie == s.threads[e.t].cookie
  {
  }

  /** A new cookie that somebody else has in hand makes a second owner. */
  lemma StaleCookieSharesUnit(up: Update, s: State, t: nat, j: Half)
    requires Protocol(s) && Enabled(s, SetCookie(t, j)) && !Fresh(s, t, j)
    ensures !Protocol(Apply(up, s, SetCookie(t, j)))
    ensures exists u :: 0 <= u < |s.threads| && u != t && Owns(Apply(up, s, SetCookie(t, j)), u)
  {
    var s' := Apply(up, s, SetCookie(t, j));
    var u :| 0 <= u < |s.threads| && u != t && s.threads[u].cookie == j;
    assert ThreadOk(s, t);
    assert Owns(s', u) && Presents(s'.dev, s'.threads[u].cookie);
    assert !ThreadOk(s', u);
  }

  /** A release by a thread that does not hold the unit fails, yet hands it the owner's cookie: from then on
      both own the unit. */
  lemma StrayReleaseSharesUnit(up: Update, s: State, t: nat) returns (owner: nat)
    requires Protocol(s) && Enabled(s, CallUnhold(t))
    requires s.dev.flagHold && !Presents(s.dev, s.threads[t].cookie)
    ensures var s' := Apply(up, s, CallUnhold(t));
            && s'.threads[t].ret == RET_ERR && owner < |s.threads| && owner != t
            && Owns(s', t) && Owns(s', owner) && !Protocol(s')
  {
    owner := s.dev.holder.value;
    assert ThreadOk(s, t) && ThreadOk(s, owner);
    var s' := Apply(up, s, CallUnhold(t));
    if Protocol(s') {
      MutualExclusion(s', t, owner);
    }
  }

  /** A release is safe exactly when it is the owner's or the unit is not held at all. */
  lemma ReleaseSafeIff(up: Update, s: State, t: nat)
    requires Protocol(s) && Enabled(s, CallUnhold(t))
    ensures Protocol(Apply(up, s, CallUnhold(t))) <==> Presents(s.dev, s.threads[t].cookie) || !s.dev.flagHold
  {
    if Presents(s.dev, s.threads[t].cookie) || !s.dev.flagHold {
      StepOfRelease(up, s, t);
    } else {
      var owner := StrayReleaseSharesUnit(up, s, t);
    }
  }

  /** After the cookie is set, the unit has one owner exactly when the cookie was fresh. */
  lemma OneOwnerIffFresh(up: Update, s: State, t: nat, j: Half)
    requires Protocol(s) && Enabled(s, SetCookie(t, j))
    ensures (forall u :: 0 <= u < |s.threads| && Owns(Apply(up, s, SetCookie(t, j)), u) ==> u == t) <==> Fresh(s, t, j)
  {
    var s' := Apply(up, s, SetCookie(t, j));
    assert ThreadOk(s, t);
    if Fresh(s, t, j) {
      forall u | 0 <= u < |s.threads| && u != t
        ensures !Owns(s', u)
      {
        assert ThreadOk(s, u) && s.threads[u].cookie != j;
      }
    } else {
      StaleCookieSharesUnit(up, s, t, j);
    }
  }

  /** A new cookie is safe exactly when it is fresh. */
  lemma CookieSafeIffFresh(up: Update, s: State, t: nat, j: Half)
    requires Protocol(s) && Enabled(s, SetCookie(t, j))
    ensures Protocol(Apply(up, s, SetCookie(t, j))) <==> Fresh(s, t, j)
  {
    if Fresh(s, t, j) {
      StepOfCookie(up, s, t, j);
    } else {
      StaleCookieSharesUnit(up, s, t, j);
    }
  }

  /** Any step keeps the protocol exactly when it obeys the two rules. */
  lemma StepSafeIffDisciplined(up: Update, s: State, e: Event)
    requires Protocol(s) && Enabled(s, e)
    ensures Protocol(Apply(up, s, e)) <==> Disciplined(s, e)
  {
    match e
    case SetCookie(t, j) => CookieSafeIffFresh(up, s, t, j);
    case CallUnhold(t) => ReleaseSafeIff(up, s, t);
    case _ => ProtocolStep(up, s, e);
  }

  // ---------------------------------------------------------------------------------------------
  // What the unit computes
  // ---------------------------------------------------------------------------------------------

  /** The registers hold the stream of the owner, at the point its calculation has reached. */
  ghost predicate RegsHold(up: Update, dev: Dev, pc: Pc, st: Stream) {
    && dev.inv == st.cfg.xorOut && dev.shape == st.cfg.shape
    && match pc
       case Kick(job, _) => dev.init == Fold(up, st.cfg.shape, st.cfg.initVal, st.data)
       case Wait(job, _) =>
         if dev.engine.Running?
         then dev.init == Fold(up, st.cfg.shape, st.cfg.initVal, st.data)
         else dev.out == Checksum(up, st.cfg, st.data + job.data)
       case Fetch(job, _, _) => dev.out == Checksum(up, st.cfg, st.data + job.data)
       case _ => dev.out == Checksum(up, st.cfg, st.data)
  }

  /** A thread in possession of the unit (between calls too) that is in a session finds its stream in the
      registers, and nothing but its own completion ever reaches it. */
  ghost predicate StreamOk(up: Update, s: State, t: nat)
    requires t < |s.threads|
  {
    var th, dev := s.threads[t], s.dev;
    Owns(s, t) && th.session.Some? ==>
      && RegsHold(up, dev, th.pc, th.session.value)
      && (if !th.pc.Wait? then dev.engine.Idle? && dev.done == 0
          else if dev.engine.Running? then dev.engine.data == th.pc.job.data && dev.done == 0
          else dev.done == 1)
  }

  /** A fresh calculation under way: until its engine completes CRC_OUT is as it was found, from then on it is the
      checksum of the data. */
  ghost predicate FreshOk(up: Update, s: State, t: nat)
    requires t < |s.threads|
  {
    var th, dev := s.threads[t], s.dev;
    (th.pc.Kick? || th.pc.Wait? || th.pc.Fetch?) && !th.pc.job.cont ==>
      var job := th.pc.job;
      && dev.init == job.cfg.initVal && dev.inv == job.cfg.xorOut && dev.shape == job.cfg.shape
      && (if th.pc.Kick? then dev.engine.Idle? && dev.out == th.before
          else if dev.engine.Running? then dev.engine.data == job.data && dev.out == th.before
          else dev.out == Checksum(up, job.cfg, job.data))
  }

  ghost predicate Computing(up: Update, s: State) {
    && (forall t {:trigger StreamOk(up, s, t)} :: 0 <= t < |s.threads| ==> StreamOk(up, s, t))
    && (forall t {:trigger FreshOk(up, s, t)} :: 0 <= t < |s.threads| ==> FreshOk(up, s, t))
  }

  /** A thread's own events. */
  lemma StreamStep(up: Update, s: State, e: Event, t: nat)
    requires Protocol(s) && Computing(up, s) && Enabled(s, e) && Disciplined(s, e)
    requires t < |s.threads| && !e.EngineDone? && e.t == t
    ensures StreamOk(up, Apply(up, s, e), t)
  {
    assert ThreadOk(s, t) && StreamOk(up, s, t);
    match e
    case WriteRegs(_) => StreamWrite(up, s, t);
    case CallHold(_) =>
    case CallCalc(_, _, _, _) =>
    case TakeHold(_) =>
    case HoldTimeout(_) =>
    case SetCookie(_, _) =>
    case StartDma(_) => StreamStart(up, s, t);
    case Wake(_) => StreamWake(up, s, t);
    case WaitTimeout(_) =>
    case ReadOut(_) => StreamRead(up, s, t);
    case EndCalc(_) => StreamEnd(up, s, t);
    case CallUnhold(_) =>
  }

  lemma StreamWrite(up: Update, s: State, t: nat)
    requires Enabled(s, WriteRegs(t)) && StreamOk(up, s, t) && ThreadOk(s, t)
    ensures StreamOk(up, Apply(up, s, WriteRegs(t)), t)
  {
    var th := s.threads[t];
    if th.pc.job.cont && th.session.Some? {
      var st := th.session.value;
      XorTwice(Fold(up, st.cfg.shape, st.cfg.initVal, st.data), st.cfg.xorOut);
    }
  }

  lemma StreamStart(up: Update, s: State, t: nat)
    requires Enabled(s, StartDma(t)) && StreamOk(up, s, t) && ThreadOk(s, t)
    ensures StreamOk(up, Apply(up, s, StartDma(t)), t)
  {
  }

  lemma StreamWake(up: Update, s: State, t: nat)
    requires Enabled(s, Wake(t)) && StreamOk(up, s, t) && ThreadOk(s, t)
    ensures StreamOk(up, Apply(up, s, Wake(t)), t)
  {
  }

  lemma StreamRead(up: Update, s: State, t: nat)
    requires Enabled(s, ReadOut(t)) && StreamOk(up, s, t) && ThreadOk(s, t)
    ensures StreamOk(up, Apply(up, s, ReadOut(t)), t)
  {
  }

  lemma StreamEnd(up: Update, s: State, t: nat)
    requires Enabled(s, EndCalc(t)) && StreamOk(up, s, t) && ThreadOk(s, t)
    ensures StreamOk(up, Apply(up, s, EndCalc(t)), t)
  {
  }

  /** The engine's completion. */
  lemma StreamDone(up: Update, s: State, t: nat)
    requires t < |s.threads| && StreamOk(up, s, t) && Enabled(s, EngineDone)
    ensures StreamOk(up, Apply(up, s, EngineDone), t)
  {
    var th := s.threads[t];
    if th.session.Some? && Owns(s, t) {
      FoldAppend(up, s.dev.shape, th.session.value.cfg.initVal, th.session.value.data, s.dev.engine.data);
    }
  }

  /** A thread outside the unit does not touch its registers, its engine or the semaphore. */
  lemma OutsideLeavesUnit(up: Update, s: State, e: Event)
    requires Enabled(s, e) && !e.EngineDone? && !InUnit(PcOf(s, e.t))
    ensures var d, d' := s.dev, Apply(up, s, e).dev;
            d'.init == d.init && d'.inv == d.inv && d'.shape == d.shape && d'.out == d.out && d'.engine == d.engine && d'.done == d.done
  {
  }

  /** Another thread's event does not make a thread an owner. */
  lemma OwnedBefore(up: Update, s: State, e: Event, t: nat)
    requires Protocol(s) && Enabled(s, e) && Disciplined(s, e)
    requires t < |s.threads| && !e.EngineDone? && e.t != t
    ensures Apply(up, s, e).threads[t] == s.threads[t]
    ensures Owns(Apply(up, s, e), t) ==> Owns(s, t)
  {
    assert ThreadOk(s, t) && ThreadOk(s, e.t);
  }

  /** Events of one thread leave the streams of the others alone. */
  lemma StreamFrame(up: Update, s: State, e: Event, t: nat)
    requires Protocol(s) && Computing(up, s) && Enabled(s, e) && Disciplined(s, e)
    requires t < |s.threads| && !e.EngineDone? && e.t != t
    ensures StreamOk(up, Apply(up, s, e), t)
  {
    assert StreamOk(up, s, t);
    OwnedBefore(up, s, e, t);
    if Owns(s, t) {
      if InUnit(PcOf(s, e.t)) {
        MutualExclusion(s, t, e.t);
      } else {
        OutsideLeavesUnit(up, s, e);
      }
    }
  }

  lemma FreshStep(up: Update, s: State, e: Event, t: nat)
    requires Protocol(s) && Computing(up, s) && Enabled(s, e) && Disciplined(s, e) && t < |s.threads|
    ensures FreshOk(up, Apply(up, s, e), t)
  {
    assert FreshOk(up, s, t);
    if !e.EngineDone? && e.t != t {
      OwnedBefore(up, s, e, t);
      if InUnit(PcOf(s, t)) {
        if InUnit(PcOf(s, e.t)) {
          MutualExclusion(s, t, e.t);
        } else {
          OutsideLeavesUnit(up, s, e);
        }
      }
    }
  }

  lemma ComputingStep(up: Update, s: State, e: Event)
    requires Protocol(s) && Computing(up, s) && Enabled(s, e) && Disciplined(s, e)
    ensures Computing(up, Apply(up, s, e))
  {
    forall t | 0 <= t < |s.threads|
      ensures StreamOk(up, Apply(up, s, e), t)
    {
      if e.EngineDone? {
        assert StreamOk(up, s, t);
        StreamDone(up, s, t);
      } else if e.t == t {
        StreamStep(up, s, e, t);
      } else {
        StreamFrame(up, s, e, t);
      }
    }
    forall t | 0 <= t < |s.threads|
      ensures FreshOk(up, Apply(up, s, e), t)
    {
      FreshStep(up, s, e, t);
    }
  }

  // ---------------------------------------------------------------------------------------------
  // Runs
  // ---------------------------------------------------------------------------------------------

  /** After attach: nothing held, every thread between calls, with whatever cookies they bring. */
  ghost predicate Initial(s: State) {
    && s.dev.holder.None? && !s.dev.flagHold && s.dev.nested == 0 && s.dev.done == 0 && s.dev.engine.Idle?
    && forall t :: 0 <= t < |s.threads| ==> PcOf(s, t).Ready? && s.threads[t].session.None?
  }

  ghost predicate RunOk(up: Update, s: State, es: seq<Event>)
    decreases |es|
  {
    es == [] || (Enabled(s, es[0]) && Disciplined(s, es[0]) && RunOk(up, Apply(up, s, es[0]), es[1..]))
  }

  ghost function Run(up: Update, s: State, es: seq<Event>): (s': State)
    requires RunOk(up, s, es)
    ensures |s'.threads| == |s.threads|
    decreases |es|
  {
    if es == [] then s else Run(up, Apply(up, s, es[0]), es[1..])
  }

  lemma {:induction false} RunKeeps(up: Update, s: State, es: seq<Event>)
    requires Protocol(s) && Computing(up, s) && RunOk(up, s, es)
    ensures Protocol(Run(up, s, es)) && Computing(up, Run(up, s, es))
    decreases |es|
  {
    if es != [] {
      ProtocolStep(up, s, es[0]);
      ComputingStep(up, s, es[0]);
      RunKeeps(up, Apply(up, s, es[0]), es[1..]);
    }
  }

  lemma InitialOk(up: Update, s: State)
    requires Initial(s)
    ensures Protocol(s) && Computing(up, s)
  {
    forall t | 0 <= t < |s.threads|
      ensures ThreadOk(s, t) && StreamOk(up, s, t) && FreshOk(up, s, t)
    {
      assert PcOf(s, t).Ready?;
    }
  }

  /** In every reachable state at most one thread owns the unit. */
  lemma ReachableExclusion(up: Update, s0: State, es: seq<Event>, t: nat, u: nat)
    requires Initial(s0) && RunOk(up, s0, es) && t < |Run(up, s0, es).threads| && u < |Run(up, s0, es).threads|
    requires Owns(Run(up, s0, es), t) && Owns(Run(up, s0, es), u)
    ensures t == u && Run(up, s0, es).dev.holder == Some(t) && Run(up, s0, es).dev.flagHold
  {
    InitialOk(up, s0);
    RunKeeps(up, s0, es);
    MutualExclusion(Run(up, s0, es), t, u);
  }

  /** Over every run, whatever the interleaving and whoever has given up waiting: a calculation in a session,
      which a fresh calculation with the semaphore empty began and no wait has ended, reports the checksum of
      all the session's data, under the configuration the session began with. */
  lemma ReportedValue(up: Update, s0: State, es: seq<Event>, t: nat)
    requires Initial(s0) && RunOk(up, s0, es)
    requires var s := Run(up, s0, es);
             t < |s.threads| && PcOf(s, t).Fetch? && PcOf(s, t).ok && s.threads[t].session.Some?
    ensures var s := Run(up, s0, es);
            var th, th' := s.threads[t], Apply(up, s, ReadOut(t)).threads[t];
            && th'.ret == RET_OK
            && th'.session == Some(Stream(th.session.value.cfg, th.session.value.data + th.pc.job.data))
            && th'.value == Checksum(up, th'.session.value.cfg, th'.session.value.data)
  {
    InitialOk(up, s0);
    RunKeeps(up, s0, es);
    ReadsStream(up, Run(up, s0, es), t);
  }

  lemma ReadsStream(up: Update, s: State, t: nat)
    requires Protocol(s) && Computing(up, s) && t < |s.threads| && PcOf(s, t).Fetch? && PcOf(s, t).ok && s.threads[t].session.Some?
    ensures var th, th' := s.threads[t], Apply(up, s, ReadOut(t)).threads[t];
            && th'.ret == RET_OK
            && th'.session == Some(Stream(th.session.value.cfg, th.session.value.data + th.pc.job.data))
            && th'.value == Checksum(up, th'.session.value.cfg, th'.session.value.data)
  {
    assert StreamOk(up, s, t);
  }

  // ---- the same of the calls a thread makes -------------------------------------------------------

  /** No call of thread `t`; the other threads and the engine do as they like. */
  predicate NoCallOf(es: seq<Event>, t: nat) {
    forall i :: 0 <= i < |es| ==> es[i] != CallHold(t) && es[i] != CallUnhold(t) && !(es[i].CallCalc? && es[i].t == t)
  }

  /** A thread at work on `job`, or done with it. `open` is the session the job continues. */
  ghost predicate AtWork(th: Thread, job: Job, open: Option<Stream>) {
    && (th.pc.HoldWait? || th.pc.HoldGot? ==> th.pc.want == Some(job))
    && (InUnit(th.pc) ==> th.pc.job == job)
    && (if job.cont then th.pc.Program? || th.pc.Kick? || th.pc.Wait? || th.pc.Fetch? ==> th.session.None? || th.session == open
        else th.pc.Kick? || th.pc.Wait? || th.pc.Fetch? ==> th.session.None? || th.session == Some(Stream(job.cfg, [])))
    && (th.pc.HoldWait? ==> th.session.None? || th.session == open)
  }

  lemma AtWorkStep(up: Update, s: State, e: Event, t: nat, job: Job, open: Option<Stream>)
    requires Enabled(s, e) && t < |s.threads| && AtWork(s.threads[t], job, open) && NoCallOf([e], t)
    ensures AtWork(Apply(up, s, e).threads[t], job, open)
  {
    assert [e][0] == e;
  }

  lemma {:induction false} AtWorkRun(up: Update, s: State, es: seq<Event>, t: nat, job: Job, open: Option<Stream>)
    requires RunOk(up, s, es) && t < |s.threads| && AtWork(s.threads[t], job, open) && NoCallOf(es, t)
    ensures AtWork(Run(up, s, es).threads[t], job, open)
    decreases |es|
  {
    if es != [] {
      assert NoCallOf([es[0]], t) && NoCallOf(es[1..], t);
      AtWorkStep(up, s, es[0], t, job, open);
      AtWorkRun(up, Apply(up, s, es[0]), es[1..], t, job, open);
    }
  }

  /** A call, whatever happens meanwhile, and the reading of its value. */
  datatype Leg = Leg(type_: nat, data: seq<Byte>, meanwhile: seq<Event>)

  function LegEvents(t: nat, leg: Leg, cont: bool): (es: seq<Event>) {
    [CallCalc(t, leg.type_, leg.data, cont)] + leg.meanwhile
  }

  ghost predicate LegOk(up: Update, s: State, t: nat, leg: Leg, cont: bool) {
    && t < |s.threads| && leg.data != [] && leg.type_ < |CONFIGS| && NoCallOf(leg.meanwhile, t)
    && RunOk(up, s, LegEvents(t, leg, cont)) && Enabled(Run(up, s, LegEvents(t, leg, cont)), ReadOut(t))
  }

  ghost function AfterLeg(up: Update, s: State, t: nat, leg: Leg, cont: bool): (s': State)
    requires LegOk(up, s, t, leg, cont)
    ensures |s'.threads| == |s.threads|
  {
    Apply(up, Run(up, s, LegEvents(t, leg, cont)), ReadOut(t))
  }

  /** One call, in any interleaving: if it leaves its thread in a session, its value is the checksum of the session's
      data, which is this call's data after what the session had before. */
  lemma LegReports(up: Update, s: State, t: nat, leg: Leg, cont: bool)
    requires Protocol(s) && Computing(up, s) && LegOk(up, s, t, leg, cont)
    ensures var s' := AfterLeg(up, s, t, leg, cont);
            var th := s'.threads[t];
            && Protocol(s') && Computing(up, s')
            && (th.session.Some? ==>
                  && (cont ==> s.threads[t].session.Some?)
                  && th.session.value == (if cont then Stream(s.threads[t].session.value.cfg, s.threads[t].session.value.data + leg.data)
                                          else Stream(CONFIGS[leg.type_], leg.data))
                  && th.ret == RET_OK && th.value == Checksum(up, th.session.value.cfg, th.session.value.data))
  {
    var call := CallCalc(t, leg.type_, leg.data, cont);
    var job := Job(CONFIGS[leg.type_], leg.data, cont, s.threads[t].cookie);
    var es := LegEvents(t, leg, cont);
    assert es[0] == call && es[1..] == leg.meanwhile;
    var s1 := Apply(up, s, call);
    assert AtWork(s1.threads[t], job, s.threads[t].session);
    AtWorkRun(up, s1, leg.meanwhile, t, job, s.threads[t].session);
    RunKeeps(up, s, es);
    var s2 := Run(up, s, es);
    assert s2 == Run(up, s1, leg.meanwhile);
    LegRead(up, s2, t, job, s.threads[t].session);
    ProtocolStep(up, s2, ReadOut(t));
    ComputingStep(up, s2, ReadOut(t));
  }

  lemma LegRead(up: Update, s: State, t: nat, job: Job, open: Option<Stream>)
    requires Protocol(s) && Computing(up, s) && Enabled(s, ReadOut(t)) && AtWork(s.threads[t], job, open)
    ensures var th := Apply(up, s, ReadOut(t)).threads[t];
            th.session.Some? ==>
              && (job.cont ==> open.Some?)
              && th.session.value == (if job.cont then Stream(open.value.cfg, open.value.data + job.data) else Stream(job.cfg, job.data))
              && th.ret == RET_OK && th.value == Checksum(up, th.session.value.cfg, th.session.value.data)
  {
    if PcOf(s, t).ok && s.threads[t].session.Some? {
      ReadsStream(up, s, t);
      assert [] + job.data == job.data;
    }
  }

  /** A calculation and its continuations by one thread. */
  ghost predicate LegsOk(up: Update, s: State, t: nat, legs: seq<Leg>, cont: bool)
    decreases |legs|
  {
    legs == [] || (LegOk(up, s, t, legs[0], cont) && LegsOk(up, AfterLeg(up, s, t, legs[0], cont), t, legs[1..], true))
  }

  ghost function AfterLegs(up: Update, s: State, t: nat, legs: seq<Leg>, cont: bool): (s': State)
    requires LegsOk(up, s, t, legs, cont)
    ensures |s'.threads| == |s.threads|
    decreases |legs|
  {
    if legs == [] then s else AfterLegs(up, AfterLeg(up, s, t, legs[0], cont), t, legs[1..], true)
  }

  function LegData(legs: seq<Leg>): (d: seq<Byte>) {
    if legs == [] then [] else legs[0].data + LegData(legs[1..])
  }

  lemma {:induction false} ContinuationsReport(up: Update, s: State, t: nat, legs: seq<Leg>)
    requires Protocol(s) && Computing(up, s) && LegsOk(up, s, t, legs, true) && t < |s.threads|
    ensures var th := AfterLegs(up, s, t, legs, true).threads[t];
            th.session.Some? ==>
              && s.threads[t].session.Some?
              && th.session.value == Stream(s.threads[t].session.value.cfg, s.threads[t].session.value.data + LegData(legs))
              && (legs != [] ==> th.ret == RET_OK && th.value == Checksum(up, th.session.value.cfg, th.session.value.data))
    decreases |legs|
  {
    if legs == [] {
      if s.threads[t].session.Some? {
        assert s.threads[t].session.value.data + [] == s.threads[t].session.value.data;
      }
    } else {
      var s1 := AfterLeg(up, s, t, legs[0], true);
      LegReports(up, s, t, legs[0], true);
      ContinuationsReport(up, s1, t, legs[1..]);
      DataInOrder(if s.threads[t].session.Some? then s.threads[t].session.value.data else [], legs);
      assert legs[1..] == [] ==> AfterLegs(up, s, t, legs, true) == s1;
    }
  }

  lemma Regroup(a: seq<Byte>, b: seq<Byte>, c: seq<Byte>)
    ensures (a + b) + c == a + (b + c)
  {
  }

  lemma DataInOrder(d: seq<Byte>, legs: seq<Leg>)
    requires legs != []
    ensures (d + legs[0].data) + LegData(legs[1..]) == d + LegData(legs)
  {
    Regroup(d, legs[0].data, LegData(legs[1..]));
  }

  /** In every interleaving of threads, calc(d0), continue(d1), ..., continue(dk) of one thread, if its session is
      still open at the end, return what one calculation on d0 ++ d1 ++ ... ++ dk returns, in the type the first one
      named, whatever types the others name. */
  lemma SessionReports(up: Update, s0: State, es: seq<Event>, t: nat, legs: seq<Leg>)
    requires Initial(s0) && RunOk(up, s0, es) && legs != [] && t < |s0.threads| && LegsOk(up, Run(up, s0, es), t, legs, false)
    ensures var th := AfterLegs(up, Run(up, s0, es), t, legs, false).threads[t];
            th.session.Some? ==> th.ret == RET_OK && th.value == Checksum(up, CONFIGS[legs[0].type_], LegData(legs))
  {
    InitialOk(up, s0);
    RunKeeps(up, s0, es);
    var s := Run(up, s0, es);
    var s1 := AfterLeg(up, s, t, legs[0], false);
    LegReports(up, s, t, legs[0], false);
    ContinuationsReport(up, s1, t, legs[1..]);
    if legs[1..] == [] {
      assert LegData(legs) == legs[0].data + [] == legs[0].data;
    }
  }

  // ---- without a session --------------------------------------------------------------------------

  /** Over every run, whatever tokens are about and whoever gave up: a fresh calculation reports the checksum of its
      data if the engine has completed when CRC_OUT is read, and the CRC_OUT it found if not. */
  lemma FreshValue(up: Update, s0: State, es: seq<Event>, t: nat)
    requires Initial(s0) && RunOk(up, s0, es)
    requires t < |Run(up, s0, es).threads| && PcOf(Run(up, s0, es), t).Fetch? && !PcOf(Run(up, s0, es), t).job.cont
    ensures var s := Run(up, s0, es);
            var th := s.threads[t];
            Apply(up, s, ReadOut(t)).threads[t].value
            == if s.dev.engine.Idle? then Checksum(up, th.pc.job.cfg, th.pc.job.data) else th.before
  {
    InitialOk(up, s0);
    RunKeeps(up, s0, es);
    assert FreshOk(up, Run(up, s0, es), t);
  }

  /** How it comes to be read too early: a fresh calculation that finds a token in the semaphore takes it for its own, and with
      nothing in between returns RET_OK with the CRC_OUT of before, whatever its data. */
  lemma StaleToken(up: Update, s: State, t: nat)
    requires t < |s.threads| && PcOf(s, t).Program? && !PcOf(s, t).job.cont && s.dev.done > 0
    ensures RunOk(up, s, [WriteRegs(t), StartDma(t), Wake(t), ReadOut(t)])
    ensures var th := Run(up, s, [WriteRegs(t), StartDma(t), Wake(t), ReadOut(t)]).threads[t];
            th.ret == RET_OK && th.value == s.dev.out && th.session.None?
  {
    var a := Apply(up, s, WriteRegs(t));
    var b := Apply(up, a, StartDma(t));
    RunTwo(up, s, WriteRegs(t), StartDma(t));
    RunTwo(up, b, Wake(t), ReadOut(t));
    RunAppend(up, s, [WriteRegs(t), StartDma(t)], [Wake(t), ReadOut(t)]);
    assert [WriteRegs(t), StartDma(t)] + [Wake(t), ReadOut(t)] == [WriteRegs(t), StartDma(t), Wake(t), ReadOut(t)];
  }

  lemma RunTwo(up: Update, s: State, e: Event, f: Event)
    requires Enabled(s, e) && Disciplined(s, e) && Enabled(Apply(up, s, e), f) && Disciplined(Apply(up, s, e), f)
    ensures RunOk(up, s, [e, f]) && Run(up, s, [e, f]) == Apply(up, Apply(up, s, e), f)
  {
    var s1 := Apply(up, s, e);
    var s2 := Apply(up, s1, f);
    assert [e, f][1..] == [f] && [f][1..] == [];
    assert RunOk(up, s2, []) && RunOk(up, s1, [f]);
    assert Run(up, s1, [f]) == s2;
  }

  lemma RunCons(up: Update, s: State, e: Event, es: seq<Event>)
    requires Enabled(s, e) && Disciplined(s, e) && RunOk(up, Apply(up, s, e), es)
    ensures RunOk(up, s, [e] + es) && Run(up, s, [e] + es) == Run(up, Apply(up, s, e), es)
  {
    assert ([e] + es)[1..] == es;
  }

  lemma RunPrefixed(up: Update, s: State, e: Event, a: seq<Event>, b: seq<Event>)
    requires Enabled(s, e) && Disciplined(s, e) && RunOk(up, Apply(up, s, e), a + b)
    ensures RunOk(up, s, [e] + a + b) && Run(up, s, [e] + a + b) == Run(up, Apply(up, s, e), a + b)
  {
    assert [e] + a + b == [e] + (a + b);
    RunCons(up, s, e, a + b);
  }

  lemma {:induction false} RunAppend(up: Update, s: State, a: seq<Event>, b: seq<Event>)
    requires RunOk(up, s, a) && RunOk(up, Run(up, s, a), b)
    ensures RunOk(up, s, a + b) && Run(up, s, a + b) == Run(up, Run(up, s, a), b)
    decreases |a|
  {
    if a == [] {
      assert a + b == b;
    } else {
      RunAppend(up, Apply(up, s, a[0]), a[1..], b);
      RunPrefixed(up, s, a[0], a[1..], b);
      assert [a[0]] + a[1..] == a;
    }
  }

  /** The step with which a calculation returns to its caller. */
  ghost predicate Returns(up: Update, s: State, e: Event) {
    (e.ReadOut? || e.EndCalc?) && Enabled(s, e) && Apply(up, s, e).threads[e.t].pc.Ready?
  }

  /** However a calculation ends, completed or timed out, it leaves the unit free exactly when it is no
      continuation and its cookie, drawn for it or its own from the start, is not the one it came with; otherwise
      it returns in possession of the unit. */
  lemma CalcEndsFreeIff(up: Update, s0: State, es: seq<Event>, e: Event)
    requires Initial(s0) && RunOk(up, s0, es) && Returns(up, Run(up, s0, es), e)
    ensures var s := Run(up, s0, es);
            var s', th := Apply(up, s, e), s.threads[e.t];
            && (s'.dev.holder.None? && !s'.dev.flagHold <==> !th.pc.job.cont && th.cookie != th.pc.job.presented)
            && (s'.dev.holder.Some? || s'.dev.flagHold ==>
                  s'.dev.holder == Some(e.t) && Presents(s'.dev, s'.threads[e.t].cookie))
            && s'.threads[e.t].ret == if th.pc.ok then RET_OK else RET_ERR
  {
    InitialOk(up, s0);
    RunKeeps(up, s0, es);
    assert ThreadOk(Run(up, s0, es), e.t);
  }

  /** The calls that end at once, and the wait for the unit that runs out: the answer is the source's, and nothing
      but the answer changes. */
  lemma EarlyAnswers(up: Update, s: State, t: nat, type_: nat, data: seq<Byte>, cont: bool)
    requires t < |s.threads|
    ensures PcOf(s, t).Ready? && (data == [] || type_ >= |CONFIGS|) ==>
              Apply(up, s, CallCalc(t, type_, data, cont)) == s.(threads := s.threads[t := s.threads[t].(ret := -1)])
    ensures PcOf(s, t).Ready? && Presents(s.dev, s.threads[t].cookie) ==>
              Apply(up, s, CallHold(t)) == s.(threads := s.threads[t := s.threads[t].(ret := 0)])
    ensures PcOf(s, t).HoldWait? ==>
              Apply(up, s, HoldTimeout(t)) == s.(threads := s.threads[t := s.threads[t].(pc := Ready, ret := -16)])
  {
  }

  // ---- runs in which it happens -------------------------------------------------------------------

  /** One caller or more, none with a cookie. */
  function Start(threads: nat): (s: State)
    ensures |s.threads| == threads
  {
    State(Dev(None, 0, false, 0, 0, 0, 0, Shape(0, 0, false), 0, Idle),
          seq(threads, i => Thread(Ready, 0, None, 0, 0, 0)))
  }

  /** A second caller, with a cookie of 0, releases while the first holds the unit. */
  lemma StrayReleaseHappens(up: Update) returns (es: seq<Event>)
    ensures Initial(Start(2)) && RunOk(up, Start(2), es)
    ensures Enabled(Run(up, Start(2), es), CallUnhold(1)) && !Disciplined(Run(up, Start(2), es), CallUnhold(1))
    ensures var s' := Apply(up, Run(up, Start(2), es), CallUnhold(1)); Owns(s', 0) && Owns(s', 1)
  {
    var s := Start(2);
    RunTwo(up, s, CallHold(0), TakeHold(0));
    var b := Apply(up, Apply(up, s, CallHold(0)), TakeHold(0));
    assert b.dev.holder == Some(0) && b.threads[1] == s.threads[1];
    RunOne(up, b, SetCookie(0, 1));
    es := [CallHold(0), TakeHold(0)] + [SetCookie(0, 1)];
    RunAppend(up, s, [CallHold(0), TakeHold(0)], [SetCookie(0, 1)]);
  }

  lemma RunOne(up: Update, s: State, e: Event)
    requires Enabled(s, e) && Disciplined(s, e)
    ensures RunOk(up, s, [e]) && Run(up, s, [e]) == Apply(up, s, e)
  {
    assert [e][1..] == [] && RunOk(up, Apply(up, s, e), []);
  }

  /** A single caller asks for a calculation on a free unit, and draws cookie 1. */
  lemma Entering(up: Update, s: State, data: seq<Byte>, cont: bool) returns (es: seq<Event>)
    requires |s.threads| == 1 && s.threads[0].pc.Ready? && s.threads[0].cookie == 0
    requires s.dev.holder.None? && !s.dev.flagHold && data != []
    ensures RunOk(up, s, es)
    ensures Run(up, s, es) ==
      State(s.dev.(holder := Some(0), nested := 0, cookie := 1, flagHold := true),
            [s.threads[0].(pc := Program(Job(CONFIGS[0], data, cont, 0), false), cookie := 1, session := None, ret := RET_OK)])
  {
    var call := CallCalc(0, 0, data, cont);
    var b := Apply(up, Apply(up, s, call), TakeHold(0));
    RunTwo(up, s, call, TakeHold(0));
    RunOne(up, b, SetCookie(0, 1));
    es := [call, TakeHold(0)] + [SetCookie(0, 1)];
    RunAppend(up, s, [call, TakeHold(0)], [SetCookie(0, 1)]);
  }

  /** It programs the registers and starts the engine. */
  lemma Starting(up: Update, s: State)
    requires |s.threads| == 1 && s.threads[0].pc.Program?
    ensures RunOk(up, s, [WriteRegs(0), StartDma(0)])
    ensures var s', job := Run(up, s, [WriteRegs(0), StartDma(0)]), s.threads[0].pc.job;
            && s'.dev == Kicked(if job.cont then ProgrammedContinue(s.dev) else ProgrammedFresh(s.dev, job.cfg), job.data)
            && s'.threads[0].pc == Wait(job, s.threads[0].pc.keep) && s'.threads[0].cookie == s.threads[0].cookie
  {
    RunTwo(up, s, WriteRegs(0), StartDma(0));
  }

  /** A continuation asked for on a free unit takes it and returns without giving it back. */
  lemma ContinuationKeepsUnit(up: Update, data: seq<Byte>) returns (es: seq<Event>)
    requires data != []
    ensures Initial(Start(1)) && RunOk(up, Start(1), es)
    ensures var s := Run(up, Start(1), es);
            s.threads[0].pc.Ready? && s.threads[0].ret == RET_OK && s.dev.holder == Some(0) && s.dev.flagHold
  {
    var s := Start(1);
    es := Entering(up, s, data, true);
    var a := Run(up, s, es);
    Starting(up, a);
    RunAppend(up, s, es, [WriteRegs(0), StartDma(0)]);
    es := es + [WriteRegs(0), StartDma(0)];
    var b := Run(up, s, es);
    CompletesAndReads(up, b);
    RunAppend(up, s, es, [EngineDone, Wake(0)] + [ReadOut(0)]);
    es := es + ([EngineDone, Wake(0)] + [ReadOut(0)]);
  }

  lemma CompletesAndReads(up: Update, s: State)
    requires |s.threads| == 1 && s.threads[0].pc.Wait? && s.threads[0].pc.job.cont && s.dev.engine.Running?
    ensures RunOk(up, s, [EngineDone, Wake(0)] + [ReadOut(0)])
    ensures var s' := Run(up, s, [EngineDone, Wake(0)] + [ReadOut(0)]);
            && s'.threads[0].pc.Ready? && s'.threads[0].ret == RET_OK
            && s'.dev.holder == s.dev.holder && s'.dev.flagHold == s.dev.flagHold
  {
    RunTwo(up, s, EngineDone, Wake(0));
    RunOne(up, Apply(up, Apply(up, s, EngineDone), Wake(0)), ReadOut(0));
    RunAppend(up, s, [EngineDone, Wake(0)], [ReadOut(0)]);
  }

  /** A one-shot calculation gives up and releases; then the engine completes after all. */
  lemma GivesUp(up: Update, s: State)
    requires |s.threads| == 1 && s.threads[0].pc.Wait? && !s.threads[0].pc.job.cont && !s.threads[0].pc.keep
    requires s.dev.engine.Running? && s.dev.done == 0 && Presents(s.dev, s.threads[0].cookie) && s.dev.holder == Some(0) && s.dev.nested == 0
    ensures RunOk(up, s, [WaitTimeout(0), ReadOut(0)] + [EndCalc(0), EngineDone])
    ensures var s' := Run(up, s, [WaitTimeout(0), ReadOut(0)] + [EndCalc(0), EngineDone]);
            && s'.threads[0].pc.Ready? && s'.threads[0].cookie == 0 && s'.dev.holder.None? && !s'.dev.flagHold
            && s'.dev.done == 1
            && s'.dev.out == XorWord(Fold(up, s.dev.shape, s.dev.init, s.dev.engine.data), s.dev.inv)
  {
    RunTwo(up, s, WaitTimeout(0), ReadOut(0));
    var b := Apply(up, Apply(up, s, WaitTimeout(0)), ReadOut(0));
    RunTwo(up, b, EndCalc(0), EngineDone);
    RunAppend(up, s, [WaitTimeout(0), ReadOut(0)], [EndCalc(0), EngineDone]);
  }

  /** Then the next calculation finds the token: it is about to return the checksum of the first one's data, as
      in StaleToken. */
  lemma StaleTokenHappens(up: Update, data: seq<Byte>, data': seq<Byte>) returns (es: seq<Event>)
    requires data != [] && data' != []
    ensures Initial(Start(1)) && RunOk(up, Start(1), es)
    ensures var s := Run(up, Start(1), es);
            && PcOf(s, 0).Program? && PcOf(s, 0).job.data == data' && !PcOf(s, 0).job.cont
            && s.dev.done == 1 && s.dev.out == Checksum(up, CONFIGS[0], data)
  {
    var s := Start(1);
    es := Entering(up, s, data, false);
    var a := Run(up, s, es);
    Starting(up, a);
    RunAppend(up, s, es, [WriteRegs(0), StartDma(0)]);
    es := es + [WriteRegs(0), StartDma(0)];
    var b := Run(up, s, es);
    GivesUp(up, b);
    RunAppend(up, s, es, [WaitTimeout(0), ReadOut(0)] + [EndCalc(0), EngineDone]);
    es := es + ([WaitTimeout(0), ReadOut(0)] + [EndCalc(0), EngineDone]);
    var c := Run(up, s, es);
    var again := Entering(up, c, data', false);
    RunAppend(up, s, es, again);
    es := es + again;
  }
}
