/** The timer driver (sdk/driver/timer/hgtimer_v2.c): the choice of prescaler in `hgtimer_v2_start`, and the
    elapsed time that `hgtimer_v2_ioctl` works out from two counter values. */
module TimerStart {
  import opened Bits

  const RET_OK := 0
  const RET_ERR := -1
  const EINVAL := 22
  const ENONET := 64

  const W32: nat := 0x1_0000_0000

  /** What the counter can reach with the largest prescaler. */
  const Limit: nat := 0x80_0000

  // ---- the prescaler ------------------------------------------------------------------------------

  /** `ticks`, counted in steps of 2^i, fit the 16-bit period register. */
  predicate Fits(ticks: nat, i: nat) {
    ticks / 0x1_0000 < Pow2(i)
  }

  /** The smallest prescaler from `from` on that fits, or 8. */
  function Smallest(ticks: nat, from: nat): (i: nat)
    requires from <= 8
    ensures from <= i <= 8 && (i < 8 ==> Fits(ticks, i))
    ensures forall j :: from <= j < i ==> !Fits(ticks, j)
    decreases 8 - from
  {
    if from == 8 || Fits(ticks, from) then from else Smallest(ticks, from + 1)
  }

  /** `(ticks >> i) - 1` in 32 bits. */
  function Period(ticks: nat, i: nat): (pr: nat) {
    (ticks / Pow2(i) - 1) % W32
  }

  lemma Powers()
    ensures Pow2(0) == 1 && Pow2(1) == 2 && Pow2(2) == 4 && Pow2(3) == 8
    ensures Pow2(4) == 16 && Pow2(5) == 32 && Pow2(6) == 64 && Pow2(7) == 128
  {
    assert Pow2(3) == 2 * Pow2(2);
    assert Pow2(5) == 2 * Pow2(4);
    assert Pow2(7) == 2 * Pow2(6);
  }

  /** Some prescaler fits exactly below 2^23. */
  lemma SomePrescalerIff(ticks: nat)
    ensures Smallest(ticks, 0) < 8 <==> ticks < Limit
  {
    Powers();
    if Smallest(ticks, 0) == 8 {
      assert !Fits(ticks, 7);
    } else {
      PowersGrow(Smallest(ticks, 0), 7);
    }
  }

  lemma {:induction false} PowersGrow(i: nat, j: nat)
    requires i <= j
    ensures Pow2(i) <= Pow2(j) && (i < j ==> 2 * Pow2(i) <= Pow2(j))
    decreases j
  {
    if i < j {
      PowersGrow(i, j - 1);
    }
  }

  lemma Quotient(a: nat, d: nat)
    requires d > 0
    ensures a / d * d <= a < (a / d + 1) * d
  {
    assert a == a / d * d + a % d;
  }

  lemma QuotientBelow(a: nat, d: nat, n: nat)
    requires d > 0
    ensures a / d < n <==> a < n * d
  {
    Quotient(a, d);
    if a / d < n {
      assert (a / d + 1) * d <= n * d;
    } else {
      assert n * d <= a / d * d;
    }
  }

  lemma FitsIff(ticks: nat, i: nat)
    ensures Fits(ticks, i) <==> ticks < 0x1_0000 * Pow2(i)
    ensures Fits(ticks, i) <==> ticks / Pow2(i) < 0x1_0000
  {
    QuotientBelow(ticks, 0x1_0000, Pow2(i));
    QuotientBelow(ticks, Pow2(i), 0x1_0000);
  }

  /** The period written fits its register and stays less than one prescaled step below the time asked for;
      with prescaler 0 it is exact, and from prescaler 1 on it is off by less than one part in 2^15. */
  lemma PeriodBounds(ticks: nat)
    requires 0 < ticks < Limit
    ensures var i := Smallest(ticks, 0); var pr := Period(ticks, i);
            && i < 8 && pr < 0xFFFF
            && (pr + 1) * Pow2(i) <= ticks < (pr + 2) * Pow2(i)
            && (i == 0 ==> pr + 1 == ticks)
            && (i > 0 ==> (ticks - (pr + 1) * Pow2(i)) * 0x8000 < ticks)
  {
    SomePrescalerIff(ticks);
    var i := Smallest(ticks, 0);
    FitsIff(ticks, i);
    AtLeastOneStep(ticks, i);
    Steps(ticks, Pow2(i));
    if i > 0 {
      NotMuchSmaller(ticks, i);
      ErrorBound(ticks, Pow2(i));
    }
  }

  lemma Steps(ticks: nat, d: nat)
    requires 0 < d <= ticks && ticks / d < 0x1_0000
    ensures var pr := (ticks / d - 1) % W32;
            pr + 1 == ticks / d && (pr + 1) * d <= ticks < (pr + 2) * d
  {
    Quotient(ticks, d);
    assert ticks / d >= 1 by { QuotientBelow(ticks, d, 1); }
  }

  lemma NotMuchSmaller(ticks: nat, i: nat)
    requires i == Smallest(ticks, 0) > 0
    ensures 0x8000 * Pow2(i) <= ticks
  {
    assert !Fits(ticks, i - 1);
    FitsIff(ticks, i - 1);
    assert Pow2(i) == 2 * Pow2(i - 1);
  }

  lemma ErrorBound(ticks: nat, d: nat)
    requires 0 < d && 0x8000 * d <= ticks
    ensures (ticks - ticks / d * d) * 0x8000 < ticks
  {
    Quotient(ticks, d);
    assert (ticks / d + 1) * d == ticks / d * d + d;
  }

  lemma AtLeastOneStep(ticks: nat, i: nat)
    requires ticks > 0 && i == Smallest(ticks, 0)
    ensures Pow2(i) <= ticks
  {
    if i > 0 {
      NotMuchSmaller(ticks, i);
    }
  }

  // ---- elapsed time -------------------------------------------------------------------------------

  /** `TIMER_CALC_TIME_DIFF_US` before scaling, for counter values of a timer with period register `pr`. */
  function Difference(p1: nat, p2: nat, pr: nat): (d: int) {
    if p2 > p1 then (p2 - p1) % W32 else (p2 + pr - p1) % W32
  }

  /** The counter takes the values 0 to `pr` in turn: `t` steps, a full turn at most, take it from `p1` to `p2`. */
  predicate Elapsed(p1: nat, p2: nat, pr: nat, t: nat) {
    1 <= t <= pr + 1 && (p1 + t == p2 || p1 + t == p2 + pr + 1)
  }

  /** The number worked out is the true number of steps exactly when the counter did not wrap between the two
      values; when it did, it is one step short. */
  lemma DifferenceExactIff(p1: nat, p2: nat, pr: nat, t: nat)
    requires p1 <= pr < 0x1_0000 && p2 <= pr && Elapsed(p1, p2, pr, t)
    ensures Difference(p1, p2, pr) == if p2 > p1 then t else t - 1
    ensures Difference(p1, p2, pr) == t <==> p1 + t <= pr
  {
  }

  /** `(diff << psc) / mhz`. */
  function Micros(p1: nat, p2: nat, pr: nat, psc: nat, mhz: nat): (us: int)
    requires mhz > 0
  {
    Difference(p1, p2, pr) * Pow2(psc) % W32 / mhz
  }

  /** In microseconds: never more than the time elapsed, and short of it by less than one microsecond and, if
      the counter wrapped, one prescaled step. */
  lemma MicrosBounds(p1: nat, p2: nat, pr: nat, t: nat, psc: nat, mhz: nat)
    requires p1 <= pr < 0x1_0000 && p2 <= pr && Elapsed(p1, p2, pr, t) && psc < 8 && mhz > 0
    ensures var us := Micros(p1, p2, pr, psc, mhz);
            us * mhz <= t * Pow2(psc) < (us + 1) * mhz + (if p1 + t <= pr then 0 else Pow2(psc))
  {
    DifferenceExactIff(p1, p2, pr, t);
    Powers();
    Scaled(Difference(p1, p2, pr), t, Pow2(psc), mhz);
  }

  lemma Scaled(d: nat, t: nat, s: nat, mhz: nat)
    requires d <= 0xFFFF && 1 <= s <= 128 && mhz > 0 && (t == d || t == d + 1)
    ensures var us := d * s % W32 / mhz;
            us * mhz <= t * s < (us + 1) * mhz + (if t == d then 0 else s)
  {
    var p := d * s;
    assert p <= 0xFFFF * s <= 0xFFFF * 128;
    assert p % W32 == p;
    assert t * s == if t == d then p else p + s by {
      if t != d {
        assert (d + 1) * s == d * s + s;
      }
    }
    Quotient(p, mhz);
  }

  // ---- the driver ---------------------------------------------------------------------------------

  /** The fields of TMR_CON. */
  datatype Con = Con(png: bool, capPng: bool, intrEn: bool, capIntrEn: bool, psc: nat, capEdge: nat, mode: nat, incSrc: nat)

  /** A write to TMR_CON: the two pending bits are cleared by ones, everything else is stored. */
  function Written(old': Con, new': Con): (r: Con) {
    new'.(png := old'.png && !new'.png, capPng := old'.capPng && !new'.capPng)
  }

  class Timer {
    var isOpen: bool
    var cb: nat
    var cbData: nat
    var con: Con
    var cnt: nat
    var pr: nat

    constructor (con: Con)
      ensures !isOpen && this.con == con
    {
      isOpen, cb, cbData, cnt, pr := false, 0, 0, 0, 0;
      this.con := con;
    }

    /** `hgtimer_v2_start`: `mhz` is `sys_get_apbclk() / 1000000`, `counter` and `rising` are the driver's two
        mode constants, and 0 stands for no callback. The product of time and clock is taken in 32 bits. */
    method Start(tmoUs: nat, cb: nat, cbData: nat, mhz: nat, counter: nat, rising: nat) returns (ret: int)
      requires tmoUs < W32 && mhz < W32
      modifies this
      ensures isOpen == old(isOpen)
      ensures ret == RET_OK <==> isOpen && tmoUs != 0 && tmoUs * mhz % W32 < Limit
      ensures ret != RET_OK ==>
                && ret == (if !isOpen then -ENONET else if tmoUs == 0 then -EINVAL else RET_ERR)
                && con == old(con) && cnt == old(cnt) && pr == old(pr) && this.cb == old(this.cb) && this.cbData == old(this.cbData)
      ensures ret == RET_OK ==>
                var ticks := tmoUs * mhz % W32;
                && this.cb == cb && this.cbData == cbData && cnt == 0
                && pr == Period(ticks, Smallest(ticks, 0))
                && con == Con(false, false, cb != 0, old(con.capIntrEn), Smallest(ticks, 0), old(con.capEdge), counter, rising)
    {
      if !isOpen {
        return -ENONET;
      }
      if tmoUs == 0 {
        return -EINVAL;
      }
      var ticks := tmoUs * mhz % W32;
      var i := Prescaler(ticks);
      SomePrescalerIff(ticks);
      if i == 8 {
        return RET_ERR;
      }
      this.cb, this.cbData := cb, cbData;
      con := Written(con, con.(intrEn := cb != 0));
      cnt := 0;
      pr := Period(ticks, i);
      con := Written(con, con.(psc := 0, incSrc := 0, mode := 0));
      con := Written(con, con.(png := true, psc := i, incSrc := rising, mode := counter));
      ret := RET_OK;
    }

    /** The search loop. */
    method Prescaler(ticks: nat) returns (i: nat)
      ensures i == Smallest(ticks, 0)
    {
      i := 0;
      while i < 8
        invariant i <= 8 && Smallest(ticks, 0) == Smallest(ticks, i)
      {
        if ticks / 0x1_0000 < Pow2(i) {
          break;
        }
        i := i + 1;
      }
    }

    /** `hgtimer_v2_ioctl` with TIMER_CALC_TIME_DIFF_US; on counter values of the running timer it answers as
        said in MicrosBounds. */
    method TimeDiff(p1: nat, p2: nat, mhz: nat) returns (us: int)
      requires p1 < W32 && p2 < W32 && mhz > 0 && con.psc < 8
      ensures us == Micros(p1, p2, pr, con.psc, mhz)
      ensures forall t: nat {:trigger Elapsed(p1, p2, pr, t)} :: p1 <= pr < 0x1_0000 && p2 <= pr && Elapsed(p1, p2, pr, t) ==>
                us * mhz <= t * Pow2(con.psc) < (us + 1) * mhz + (if p1 + t <= pr then 0 else Pow2(con.psc))
    {
      var diff := if p2 > p1 then (p2 - p1) % W32 else (p2 + pr - p1) % W32;
      us := diff * Pow2(con.psc) % W32 / mhz;
      forall t: nat | p1 <= pr < 0x1_0000 && p2 <= pr && Elapsed(p1, p2, pr, t)
        ensures us * mhz <= t * Pow2(con.psc) < (us + 1) * mhz + (if p1 + t <= pr then 0 else Pow2(con.psc))
      {
        MicrosBounds(p1, p2, pr, t, con.psc, mhz);
      }
    }
  }

  /** A time so long that its ticks do not fit 32 bits is accepted when what is left of them is small enough;
      the period of an accepted time is the one asked for exactly when the ticks did fit. */
  lemma AcceptedPeriodRightIff(tmoUs: nat, mhz: nat)
    requires 0 < tmoUs < W32 && 0 < mhz < W32 && tmoUs * mhz % W32 < Limit
    ensures var p := tmoUs * mhz; var i := Smallest(p % W32, 0); var pr := Period(p % W32, i);
            (pr < 0x1_0000 && (pr + 1) * Pow2(i) <= p < (pr + 2) * Pow2(i)) <==> p < W32
  {
    var p := tmoUs * mhz;
    assert p >= 1;
    if p < W32 {
      assert p % W32 == p;
      PeriodBounds(p);
    } else {
      TooShort(p % W32, p);
    }
  }

  lemma TooShort(ticks: nat, p: nat)
    requires ticks < Limit && W32 <= p
    ensures var i := Smallest(ticks, 0); var pr := Period(ticks, i);
            pr >= 0x1_0000 || (pr + 2) * Pow2(i) <= p
  {
    SomePrescalerIff(ticks);
    Powers();
    if ticks > 0 {
      PeriodBounds(ticks);
      Apart(Period(ticks, Smallest(ticks, 0)), Pow2(Smallest(ticks, 0)), ticks);
    } else {
      assert Smallest(0, 0) == 0;
    }
  }

  lemma Apart(pr: nat, d: nat, ticks: nat)
    requires (pr + 1) * d <= ticks
    ensures (pr + 2) * d <= ticks + d
  {
    assert (pr + 2) * d == (pr + 1) * d + d;
  }
}
