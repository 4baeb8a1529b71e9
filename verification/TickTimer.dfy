/** The 32-bit tick count of sdk/chip/txw4002ack803/ticker_api.c: a 16-bit counter, a pending bit, a count of
    overflow interrupts, and a reader that stops the timer to look at all three.

    The device: the counter counts while the control register is not zero; reaching 0x10000 it starts again
    from 0 and sets the pending bit; writing a one to the pending bit clears it. The timer interrupt has the
    highest priority and the reader masks it, so neither runs inside the other; the counter runs inside both. */
module TickTimer {

  const W16: nat := 0x1_0000
  const W32: nat := 0x1_0000_0000

  /** `hw_timer_irq_handler`: outside, about to clear the pending bit, about to count. */
  datatype Handler = Out | Seen | Cleared

  /** `hw_timer_get_tick`: outside, control register read, timer stopped, value made. */
  datatype Reader = Idle | HaveReg(pending: bool) | Stopped(pending: bool) | Combined(pending: bool)

  /** A value returned, beside the true number of ticks at that moment and the overflows the value misses:
      merged into an earlier pending one, cleared by earlier readers, or fallen between the read of the
      control register and the stop. `pending` says whether this reader found the pending bit set. */
  datatype Reading = Reading(value: nat, ticks: nat, merged: nat, cleared: nat, late: bool, pending: bool)

  function Missed(r: Reading): (n: nat) { r.merged + r.cleared + B(r.late) }

  function B(b: bool): (n: nat) { if b then 1 else 0 }

  /** The registers and `hw_timer_intr_cnt`; then where the two pieces of code are; then the history. */
  datatype State = State(
    cnt: nat, png: bool, on: bool, intr: nat,
    handler: Handler, reader: Reader,
    ticks: nat, counted: nat, merged: nat, cleared: nat, readings: seq<Reading>)

  /** `hw_timer_init`. */
  const Init := State(0, false, true, 0, Out, Idle, 0, 0, 0, 0, [])

  datatype Step = Tick | Check | Clear | Count | ReadCon | Stop | Combine | Restart

  /** `(cnt << 16) | TMR_CNT` in 32 bits. */
  function Joined(intr: nat, pending: bool, cnt: nat): (v: nat)
    requires cnt < W16
  {
    ((intr + B(pending)) % W32 * W16) % W32 + cnt
  }

  function Made(s: State): (r: Reading)
    requires s.cnt < W16 && s.reader.Stopped?
  {
    var p := s.reader.pending;
    Reading(Joined(s.intr, p, s.cnt), s.ticks, s.merged, s.cleared, s.png && !p, p)
  }

  /** One step; a step that cannot be taken leaves the state alone. */
  function Apply(s: State, step: Step): (r: State)
    requires s.cnt < W16
    ensures r.cnt < W16
  {
    match step
    case Tick =>
      if !s.on then s
      else if s.cnt < W16 - 1 then s.(cnt := s.cnt + 1, ticks := s.ticks + 1)
      else s.(cnt := 0, png := true, ticks := s.ticks + 1, merged := s.merged + B(s.png))
    case Check => if s.handler.Out? && s.reader.Idle? && s.png then s.(handler := Seen) else s
    case Clear => if s.handler.Seen? then s.(handler := Cleared, png := false) else s
    case Count => if s.handler.Cleared? then s.(handler := Out, intr := (s.intr + 1) % W32, counted := s.counted + 1) else s
    case ReadCon => if s.handler.Out? && s.reader.Idle? then s.(reader := HaveReg(s.png)) else s
    case Stop => if s.reader.HaveReg? then s.(reader := Stopped(s.reader.pending), on := false) else s
    case Combine =>
      if s.reader.Stopped? then
        s.(reader := Combined(s.reader.pending), readings := s.readings + [Made(s)])
      else s
    case Restart =>
      // bit 15 of the value written back is the pending bit as it was read
      if s.reader.Combined? then
        s.(reader := Idle, on := true, png := s.png && !s.reader.pending, cleared := s.cleared + B(s.reader.pending))
      else s
  }

  function Run(s: State, steps: seq<Step>): (r: State)
    requires s.cnt < W16
    ensures r.cnt < W16
    decreases |steps|
  {
    if steps == [] then s else Run(Apply(s, steps[0]), steps[1..])
  }

  /** Every overflow is counted, pending, on its way through the handler, merged or cleared. */
  ghost predicate Balanced(s: State) {
    && s.cnt < W16 && s.intr == s.counted % W32
    && s.ticks == W16 * (s.counted + s.merged + s.cleared + B(s.png) + B(s.handler.Cleared?)) + s.cnt
    && (s.handler.Seen? ==> s.png)
    && (!s.handler.Out? ==> s.reader.Idle?)
    && (s.on <==> s.reader.Idle? || s.reader.HaveReg?)
    && (!s.reader.Idle? && s.reader.pending ==> s.png)
  }

  ghost predicate Logged(s: State) {
    && (forall i :: 0 <= i < |s.readings| ==> Accurate(s.readings[i]) && NoLater(s.readings[i], s.ticks, s.merged, s.cleared))
    && (forall i, j :: 0 <= i < j < |s.readings| ==>
          NoLater(s.readings[i], s.readings[j].ticks, s.readings[j].merged, s.readings[j].cleared))
  }

  ghost predicate Inv(s: State) {
    Balanced(s) && Logged(s)
  }

  /** A value is the true count less what it misses, in 32 bits. */
  predicate Accurate(r: Reading) {
    r.value == (r.ticks - W16 * Missed(r)) % W32
  }

  predicate NoLater(r: Reading, ticks: nat, merged: nat, cleared: nat) {
    r.ticks <= ticks && r.merged <= merged && r.cleared <= cleared
  }

  lemma Remainder(x: int, q: int, r: int)
    requires x == q * W32 + r && 0 <= r < W32
    ensures x % W32 == r
  {
  }

  lemma JoinedIs(counted: nat, pending: bool, cnt: nat)
    requires cnt < W16
    ensures Joined(counted % W32, pending, cnt) == (W16 * (counted + B(pending)) + cnt) % W32
  {
    var c, a := counted + B(pending), counted % W32 + B(pending);
    var q, low := counted / W32 + a / W32, c % W16;
    assert a % W32 == c - q * W32;
    Remainder(a % W32 * W16, c / W16 - q * W16, low * W16);
    Remainder(W16 * c + cnt, c / W16, low * W16 + cnt);
  }

  lemma StepBalances(s: State, step: Step)
    requires Balanced(s)
    ensures Balanced(Apply(s, step))
  {
    match step
    case Tick => TickBalances(s);
    case Count => CountBalances(s);
    case Check =>
    case Clear =>
    case ReadCon =>
    case Stop =>
    case Combine =>
    case Restart =>
  }

  lemma TickBalances(s: State)
    requires Balanced(s)
    ensures Balanced(Apply(s, Tick))
  {
  }

  lemma CountBalances(s: State)
    requires Balanced(s)
    ensures Balanced(Apply(s, Count))
  {
  }

  lemma CombinesAccurately(s: State)
    requires Balanced(s) && s.reader.Stopped?
    ensures Accurate(Made(s))
  {
    JoinedIs(s.counted, s.reader.pending, s.cnt);
  }

  lemma StepLogs(s: State, step: Step)
    requires Balanced(s) && Logged(s)
    ensures Logged(Apply(s, step))
  {
    if step.Combine? && s.reader.Stopped? {
      CombinesAccurately(s);
    }
  }

  lemma {:induction false} RunKeeps(s: State, steps: seq<Step>)
    requires Inv(s)
    ensures Inv(Run(s, steps))
    decreases |steps|
  {
    if steps != [] {
      StepBalances(s, steps[0]);
      StepLogs(s, steps[0]);
      RunKeeps(Apply(s, steps[0]), steps[1..]);
    }
  }

  lemma ShortBy(t: int, n: int)
    ensures (t - W16 * n) % W32 == t % W32 <==> n % W16 == 0
  {
    assert (t - W16 * n) % W32 == t % W32 <==> (W16 * n) % W32 == 0;
  }

  lemma RemainderOfDifference(x: int, y: int)
    ensures (x % W32 - y % W32) % W32 == (x - y) % W32
    ensures (x % W32 - y) % W32 == (x - y) % W32
  {
    var q := x / W32 - y / W32;
    assert x % W32 - y % W32 == x - y - q * W32;
  }

  lemma DifferenceShort(t: nat, m: nat, u: nat, n: nat)
    ensures ((u - W16 * n) % W32 - (t - W16 * m) % W32) % W32 == (u - t) % W32 <==> (n - m) % W16 == 0
  {
    RemainderOfDifference(u - W16 * n, t - W16 * m);
    assert u - W16 * n - (t - W16 * m) == u - t - W16 * (n - m);
    ShortBy(u - t, n - m);
  }

  // ---- what is missed -----------------------------------------------------------------------------

  function PendingReads(rs: seq<Reading>): (n: nat) {
    if rs == [] then 0 else PendingReads(rs[..|rs| - 1]) + B(rs[|rs| - 1].pending)
  }

  /** Overflows are cleared by readers that found one pending, one each. */
  ghost predicate Tally(s: State) {
    && s.cleared + B(s.reader.Combined? && s.reader.pending) == PendingReads(s.readings)
    && forall i :: 0 <= i < |s.readings| ==> s.readings[i].cleared == PendingReads(s.readings[..i])
  }

  lemma StepTallies(s: State, step: Step)
    requires s.cnt < W16 && Tally(s)
    ensures Tally(Apply(s, step))
  {
    match step
    case Combine => CombineTallies(s);
    case Tick =>
    case Check =>
    case Clear =>
    case Count =>
    case ReadCon =>
    case Stop =>
    case Restart =>
  }

  lemma CombineTallies(s: State)
    requires s.cnt < W16 && Tally(s)
    ensures Tally(Apply(s, Combine))
  {
    if s.reader.Stopped? {
      LongerLog(s.readings, Made(s));
    }
  }

  lemma LongerLog(rs: seq<Reading>, r: Reading)
    requires forall i :: 0 <= i < |rs| ==> rs[i].cleared == PendingReads(rs[..i])
    requires r.cleared == PendingReads(rs)
    ensures PendingReads(rs + [r]) == PendingReads(rs) + B(r.pending)
    ensures forall i :: 0 <= i <= |rs| ==> (rs + [r])[i].cleared == PendingReads((rs + [r])[..i])
  {
    var all := rs + [r];
    assert all[..|rs|] == rs;
    forall i | 0 <= i <= |rs|
      ensures all[i].cleared == PendingReads(all[..i])
    {
      assert all[..i] == rs[..i];
    }
  }

  lemma {:induction false} RunTallies(s: State, steps: seq<Step>)
    requires s.cnt < W16 && Tally(s)
    ensures Tally(Run(s, steps))
    decreases |steps|
  {
    if steps != [] {
      StepTallies(s, steps[0]);
      RunTallies(Apply(s, steps[0]), steps[1..]);
    }
  }

  // ---- every reachable state ----------------------------------------------------------------------

  ghost predicate Reachable(s: State) {
    exists steps :: s == Run(Init, steps)
  }

  lemma ReachableInv(s: State)
    requires Reachable(s)
    ensures Inv(s) && Tally(s)
  {
    var steps :| s == Run(Init, steps);
    RunKeeps(Init, steps);
    RunTallies(Init, steps);
  }

  lemma ReachableLog(s: State, i: nat, j: nat)
    requires Reachable(s) && i <= j < |s.readings|
    ensures Accurate(s.readings[i]) && Accurate(s.readings[j]) && s.readings[i].ticks <= s.readings[j].ticks
    ensures s.readings[i].cleared == PendingReads(s.readings[..i])
  {
    ReachableInv(s);
  }

  predicate Exact(r: Reading) {
    r.value == r.ticks % W32
  }

  lemma ExactIff(r: Reading)
    requires Accurate(r)
    ensures Exact(r) <==> Missed(r) % W16 == 0
  {
    ShortBy(r.ticks, Missed(r));
  }

  /** In every interleaving of counter, handler and reader, a value returned is the true count in 32 bits
      exactly when the overflows it misses are a multiple of 0x10000. */
  lemma ReadingExactIff(s: State, i: nat)
    requires Reachable(s) && i < |s.readings|
    ensures Exact(s.readings[i]) <==> Missed(s.readings[i]) % W16 == 0
  {
    ReachableLog(s, i, i);
    ExactIff(s.readings[i]);
  }

  predicate ExactDifference(a: Reading, b: Reading) {
    (b.value - a.value) % W32 == (b.ticks - a.ticks) % W32
  }

  lemma ExactDifferenceIff(a: Reading, b: Reading)
    requires Accurate(a) && Accurate(b)
    ensures ExactDifference(a, b) <==> (Missed(b) - Missed(a)) % W16 == 0
  {
    DifferenceShort(a.ticks, Missed(a), b.ticks, Missed(b));
  }

  /** The difference of two values is the number of ticks between them exactly when the second misses no more
      overflows than the first, up to a multiple of 0x10000; the ticks themselves only grow. */
  lemma DifferenceExactIff(s: State, i: nat, j: nat)
    requires Reachable(s) && i < j < |s.readings|
    ensures s.readings[i].ticks <= s.readings[j].ticks
    ensures ExactDifference(s.readings[i], s.readings[j])
       <==> (Missed(s.readings[j]) - Missed(s.readings[i])) % W16 == 0
  {
    ReachableLog(s, i, j);
    ExactDifferenceIff(s.readings[i], s.readings[j]);
  }

  /** With the handler in time and no overflow between the read of the register and the stop, a value is exact
      exactly when the number of earlier readers that found an overflow pending is a multiple of 0x10000. The
      first such reader's value is therefore right, and the next reader's is wrong. */
  lemma ExactUntilOverflowWasRead(s: State, i: nat)
    requires Reachable(s) && i < |s.readings| && s.readings[i].merged == 0 && !s.readings[i].late
    ensures Exact(s.readings[i]) <==> PendingReads(s.readings[..i]) % W16 == 0
  {
    ReachableLog(s, i, i);
    ExactIff(s.readings[i]);
  }

  lemma {:induction false} RunAppend(s: State, a: seq<Step>, b: seq<Step>)
    requires s.cnt < W16
    ensures Run(s, a + b) == Run(Run(s, a), b)
    decreases |a|
  {
    if a == [] {
      assert a + b == b;
    } else {
      assert (a + b)[1..] == a[1..] + b;
      RunAppend(Apply(s, a[0]), a[1..], b);
    }
  }

  /** The steps of one undisturbed call of `hw_timer_get_tick`. */
  const ReadCall := [ReadCon, Stop, Combine, Restart]

  /** What such a call does to any state in which it can start. */
  lemma OneRead(s: State)
    requires s.cnt < W16 && s.handler.Out? && s.reader.Idle?
    ensures Run(s, ReadCall) ==
      s.(png := false, on := true, cleared := s.cleared + B(s.png),
         readings := s.readings + [Reading(Joined(s.intr, s.png, s.cnt), s.ticks, s.merged, s.cleared, false, s.png)])
  {
    RunFour(s, ReadCon, Stop, Combine, Restart);
    ReadStops(s);
    ReadEnds(Apply(Apply(s, ReadCon), Stop));
  }

  lemma ReadStops(s: State)
    requires s.cnt < W16 && s.handler.Out? && s.reader.Idle?
    ensures Apply(Apply(s, ReadCon), Stop) == s.(reader := Stopped(s.png), on := false)
  {
  }

  lemma ReadEnds(s: State)
    requires s.cnt < W16 && s.reader == Stopped(s.png)
    ensures Apply(Apply(s, Combine), Restart)
         == s.(reader := Idle, png := false, on := true, cleared := s.cleared + B(s.png),
               readings := s.readings + [Reading(Joined(s.intr, s.png, s.cnt), s.ticks, s.merged, s.cleared, false, s.png)])
  {
  }

  lemma RunFour(s: State, p: Step, q: Step, u: Step, v: Step)
    requires s.cnt < W16
    ensures Run(s, [p, q, u, v]) == Apply(Apply(Apply(Apply(s, p), q), u), v)
  {
    var s1 := Apply(s, p);
    var s2 := Apply(s1, q);
    var s3 := Apply(s2, u);
    assert Run(s, [p, q, u, v]) == Run(s1, [q, u, v]) by { assert [p, q, u, v][1..] == [q, u, v]; }
    assert Run(s1, [q, u, v]) == Run(s2, [u, v]) by { assert [q, u, v][1..] == [u, v]; }
    assert Run(s2, [u, v]) == Run(s3, [v]) by { assert [u, v][1..] == [v]; }
    assert Run(s3, [v]) == Apply(s3, v) by { assert [v][1..] == []; }
  }

  /** Two calls in a row while an overflow is pending, no tick between them: the second value is 0x10000 less
      than the first. */
  lemma TimeRunsBack(s: State, s': State)
    requires Inv(s) && s.png && s.handler.Out? && s.reader.Idle?
    requires s' == Run(s, ReadCall + ReadCall)
    ensures |s'.readings| == |s.readings| + 2 && !s'.png
    ensures var a, b := s'.readings[|s.readings|], s'.readings[|s.readings| + 1];
            a.ticks == b.ticks && b.value == (a.value - W16) % W32
  {
    OneOverflowLess(s.counted, s.cnt);
    TwoReads(s);
  }

  lemma TwoReads(s: State)
    requires s.cnt < W16 && s.handler.Out? && s.reader.Idle? && s.png
    ensures var s' := Run(s, ReadCall + ReadCall);
            && !s'.png && s'.readings == s.readings
                 + [Reading(Joined(s.intr, true, s.cnt), s.ticks, s.merged, s.cleared, false, true),
                    Reading(Joined(s.intr, false, s.cnt), s.ticks, s.merged, s.cleared + 1, false, false)]
  {
    OneRead(s);
    OneRead(Run(s, ReadCall));
    RunAppend(s, ReadCall, ReadCall);
  }

  lemma OneOverflowLess(counted: nat, cnt: nat)
    requires cnt < W16
    ensures Joined(counted % W32, false, cnt) == (Joined(counted % W32, true, cnt) - W16) % W32
  {
    var x := W16 * counted + cnt;
    assert Joined(counted % W32, false, cnt) == x % W32 by { JoinedIs(counted, false, cnt); }
    assert Joined(counted % W32, true, cnt) == (x + W16) % W32 by { JoinedIs(counted, true, cnt); }
    RemainderOfDifference(x + W16, W16);
  }

  function Ticks(n: nat): (steps: seq<Step>) {
    if n == 0 then [] else [Tick] + Ticks(n - 1)
  }

  lemma {:induction false} TicksPass(s: State, n: nat)
    requires s.on && s.cnt + n < W16
    ensures Run(s, Ticks(n)) == s.(cnt := s.cnt + n, ticks := s.ticks + n)
    decreases n
  {
    if n > 0 {
      assert Ticks(n)[1..] == Ticks(n - 1);
      TicksPass(Apply(s, Tick), n - 1);
    }
  }

  /** It happens: 0x10000 ticks after the start, with two calls before the handler gets its turn, the second
      call returns 0, and the handler then finds nothing to count. */
  lemma OverflowForgotten()
    ensures var s := Run(Init, Ticks(W16 - 1) + ([Tick] + (ReadCall + ReadCall)));
            && |s.readings| == 2 && s.readings[0].value == W16 && s.readings[1].value == 0
            && s.readings[1].ticks == W16 && Apply(s, Check) == s
  {
    TicksPass(Init, W16 - 1);
    RunAppend(Init, Ticks(W16 - 1), [Tick] + (ReadCall + ReadCall));
    var s := Run(Init, Ticks(W16 - 1));
    RunAppend(s, [Tick], ReadCall + ReadCall);
    var s1 := Apply(s, Tick);
    assert [Tick][1..] == [];
    assert Run(s, [Tick]) == s1;
    assert s1.png && s1.cnt == 0 && s1.ticks == W16;
    TwoReads(s1);
  }

  // ---- the code, in place -------------------------------------------------------------------------

  lemma ReachableStep(s: State, step: Step)
    requires Reachable(s) && s.cnt < W16
    ensures Reachable(Apply(s, step))
  {
    var steps :| s == Run(Init, steps);
    RunAppend(Init, steps, [step]);
    assert Run(s, [step]) == Apply(s, step) by { assert [step][1..] == []; }
  }

  lemma ReachableInit()
    ensures Reachable(Init)
  {
    assert Run(Init, []) == Init;
  }

  /** TIMER0 and `hw_timer_intr_cnt`; `st` is the state of the protocol above. */
  class Ticker {
    var cnt: nat
    var png: bool
    var on: bool
    var intr: nat
    ghost var st: State

    ghost predicate Valid()
      reads this
    {
      && st.cnt < W16 && Reachable(st)
      && st.cnt == cnt && st.png == png && st.on == on && st.intr == intr
    }

    /** `hw_timer_init`. */
    constructor ()
      ensures Valid() && st == Init
    {
      cnt, png, on, intr := 0, false, true, 0;
      st := Init;
      ReachableInit();
    }

    /** Time passes: the counter makes as many steps as it likes. */
    method Elapse()
      requires Valid()
      modifies this
      ensures Valid()
      ensures st == old(st).(cnt := st.cnt, png := st.png, ticks := st.ticks, merged := st.merged)
    {
      var n: nat := *;
      while n > 0
        invariant Valid()
        invariant st == old(st).(cnt := st.cnt, png := st.png, ticks := st.ticks, merged := st.merged)
      {
        TickOnce();
        n := n - 1;
      }
    }

    method TickOnce()
      requires Valid()
      modifies this
      ensures Valid() && st == Apply(old(st), Tick)
    {
      if on {
        png := png || cnt == W16 - 1;
        cnt := if cnt == W16 - 1 then 0 else cnt + 1;
      }
      ReachableStep(st, Tick);
      st := Apply(st, Tick);
    }

    /** `hw_timer_irq_handler`: a pending overflow is counted, even if another one passes meanwhile. */
    method IrqHandler()
      requires Valid() && st.handler.Out? && st.reader.Idle?
      modifies this
      ensures Valid() && st.handler.Out? && st.reader.Idle? && st.readings == old(st.readings)
      ensures st.counted == old(st.counted) + B(old(png)) && st.cleared == old(st.cleared)
    {
      if png {
        ReachableStep(st, Check);
        st := Apply(st, Check);
        Elapse();
        HandlerSees();
        png := false;
        ReachableStep(st, Clear);
        st := Apply(st, Clear);
        Elapse();
        intr := (intr + 1) % W32;
        ReachableStep(st, Count);
        st := Apply(st, Count);
      }
      Elapse();
    }

    lemma HandlerSees()
      requires Valid() && st.handler.Seen?
      ensures png
    {
      ReachableInv(st);
    }

    /** `hw_timer_get_tick`: the value returned is one more entry of the log, so it is exact precisely when
        that entry misses nothing; an overflow found pending is thereby cleared without being counted. */
    method GetTick() returns (r: nat)
      requires Valid() && st.handler.Out? && st.reader.Idle?
      modifies this
      ensures Valid() && st.handler.Out? && st.reader.Idle?
      ensures |st.readings| == |old(st.readings)| + 1 && st.readings[..|old(st.readings)|] == old(st.readings)
      ensures var last := st.readings[|old(st.readings)|];
              && r == last.value && last.pending == old(png)
              && (Exact(last) <==> Missed(last) % W16 == 0)
              && last.cleared == old(st.cleared) && st.cleared == old(st.cleared) + B(old(png))
    {
      var pending := StopTimer();
      r := Value(pending);
      png := png && !pending;
      on := true;
      Advance(Restart);
      Elapse();
      ReadingExactIff(st, |old(st.readings)|);
    }

    /** The register is read, time passes, the timer is stopped. */
    method StopTimer() returns (pending: bool)
      requires Valid() && st.handler.Out? && st.reader.Idle?
      modifies this
      ensures Valid() && st.handler.Out? && st.reader == Stopped(pending) && pending == old(png)
      ensures st.readings == old(st.readings) && st.cleared == old(st.cleared)
    {
      pending := png;
      Advance(ReadCon);
      Elapse();
      on := false;
      Advance(Stop);
      Elapse();
    }

    /** The value is put together while the counter stands still. */
    method Value(pending: bool) returns (r: nat)
      requires Valid() && st.handler.Out? && st.reader == Stopped(pending)
      modifies this
      ensures Valid() && st == Apply(old(st), Combine)
      ensures r == Made(old(st)).value
    {
      var c := if pending then (intr + 1) % W32 else intr;
      r := (c * W16) % W32 + cnt;
      MakesValue(st);
      Advance(Combine);
    }

    /** The protocol follows the registers. */
    ghost method Advance(step: Step)
      requires st.cnt < W16 && Reachable(st)
      requires var s := Apply(st, step); s.cnt == cnt && s.png == png && s.on == on && s.intr == intr
      modifies this`st
      ensures Valid() && st == Apply(old(st), step)
    {
      ReachableStep(st, step);
      st := Apply(st, step);
    }
  }

  lemma MakesValue(s: State)
    requires Reachable(s) && s.cnt < W16 && s.reader.Stopped?
    ensures Made(s).value == ((if s.reader.pending then (s.intr + 1) % W32 else s.intr) * W16) % W32 + s.cnt
  {
    ReachableInv(s);
    assert s.intr < W32;
    assert (s.intr + 0) % W32 == s.intr;
  }
}
