/** The CRC unit and its driver (sdk/driver/crc/hg_crc.c), one critical section at a time.

    The hardware folds the data over a register: a calculation that starts from register value `r`
    leaves `Fold(r, data) xor INV` in CRC_OUT. How one byte changes the register is a parameter. */
module CrcUnit {
  import opened Bits

  datatype Option<+T> = None | Some(value: T)

  /** What CRC_POLY and CRC_CFG select. */
  datatype Shape = Shape(poly: Word, polyBits: nat, rightShift: bool)

  datatype Config = Config(shape: Shape, initVal: Word, xorOut: Word)

  type Update = (Shape, Word, Byte) -> Word

  /** The table `hgcrc_cfg`, indexed by `enum CRC_DEV_TYPE`; the build for TXW4002ACK803 refuses the last
      type, the TCP/IP checksum. */
  const CONFIGS: seq<Config> := [
    Config(Shape(0x14, 5, true), 0x1f, 0x1f),
    Config(Shape(0x48, 7, false), 0, 0),
    Config(Shape(0x8C, 8, true), 0, 0),
    Config(Shape(0xE0, 8, false), 0, 0),
    Config(Shape(0xA001, 16, true), 0, 0),
    Config(Shape(0x8408, 16, true), 0, 0),
    Config(Shape(0xA001, 16, true), 0xFFFF, 0),
    Config(Shape(0xEDB88320, 32, true), 0xFFFFFFFF, 0xFFFFFFFF)
  ]

  function Fold(up: Update, shape: Shape, reg: Word, data: seq<Byte>): (r: Word)
    decreases |data|
  {
    if data == [] then reg else Fold(up, shape, up(shape, reg, data[0]), data[1..])
  }

  /** The checksum of `data`: what one uninterrupted calculation reports. */
  function Checksum(up: Update, cfg: Config, data: seq<Byte>): (r: Word) {
    XorWord(Fold(up, cfg.shape, cfg.initVal, data), cfg.xorOut)
  }

  lemma {:induction false} FoldAppend(up: Update, shape: Shape, reg: Word, a: seq<Byte>, b: seq<Byte>)
    ensures Fold(up, shape, reg, a + b) == Fold(up, shape, Fold(up, shape, reg, a), b)
    decreases |a|
  {
    if a == [] {
      assert a + b == b;
    } else {
      assert (a + b)[1..] == a[1..] + b;
      FoldAppend(up, shape, up(shape, reg, a[0]), a[1..], b);
    }
  }

  /** What one byte does: alone, and after the data before it. */
  lemma FoldOne(up: Update, shape: Shape, reg: Word, b: Byte)
    ensures Fold(up, shape, reg, []) == reg && Fold(up, shape, reg, [b]) == up(shape, reg, b)
  {
    assert [b][1..] == [];
  }

  lemma OneByteChecksum(up: Update, cfg: Config, data: seq<Byte>)
    ensures |data| == 1 ==> Checksum(up, cfg, data) == XorWord(up(cfg.shape, cfg.initVal, data[0]), cfg.xorOut)
  {
    if |data| == 1 {
      FoldOne(up, cfg.shape, cfg.initVal, data[0]);
      assert data == [data[0]];
    }
  }

  lemma FoldSnoc(up: Update, shape: Shape, reg: Word, data: seq<Byte>, b: Byte)
    ensures Fold(up, shape, reg, data + [b]) == up(shape, Fold(up, shape, reg, data), b)
  {
    FoldAppend(up, shape, reg, data, [b]);
    FoldOne(up, shape, Fold(up, shape, reg, data), b);
  }

  /** The register a byte at a time: there is one sequence of values that starts with `reg` and goes on by `up`, and
      the fold is its last. */
  lemma {:induction false} FoldIsLast(up: Update, shape: Shape, regs: seq<Word>, data: seq<Byte>)
    requires |regs| == |data| + 1 && forall i :: 0 <= i < |data| ==> regs[i + 1] == up(shape, regs[i], data[i])
    ensures Fold(up, shape, regs[0], data) == regs[|data|]
    decreases |data|
  {
    if data != [] {
      var n := |data| - 1;
      FoldIsLast(up, shape, regs[..n + 1], data[..n]);
      FoldSnoc(up, shape, regs[0], data[..n], data[n]);
      assert data == data[..n] + [data[n]];
    }
  }

  /** `hg_crc_calc_continue` resumes: undoing the final inversion of one checksum and folding more data in
      gives the checksum of the concatenation. */
  lemma ContinueChecksum(up: Update, cfg: Config, a: seq<Byte>, b: seq<Byte>)
    ensures XorWord(Fold(up, cfg.shape, XorWord(Checksum(up, cfg, a), cfg.xorOut), b), cfg.xorOut) == Checksum(up, cfg, a + b)
  {
    FoldAppend(up, cfg.shape, cfg.initVal, a, b);
    XorTwice(Fold(up, cfg.shape, cfg.initVal, a), cfg.xorOut);
  }

  datatype Engine = Idle | Running(data: seq<Byte>)

  /** The driver's shared state: the `hold` mutex, who took it and how often again, the HOLD flag, the cookie,
      the `done` semaphore, and the registers. */
  datatype Dev = Dev(holder: Option<nat>, nested: nat, flagHold: bool, cookie: Half, done: nat,
                     init: Word, inv: Word, shape: Shape, out: Word, engine: Engine)

  // ---- what each critical section does to the shared state -------------------------------------

  /** `hg_crc_hold(.., 1)` under `lock`: is the caller already the holder? */
  predicate Presents(d: Dev, cookie: Half) {
    d.flagHold && cookie == d.cookie
  }

  /** The kernel's mutex lets its owner in again. */
  predicate MayLock(d: Dev, t: nat) {
    d.holder.None? || d.holder.value == t
  }

  predicate MayEnter(d: Dev, t: nat, cookie: Half) {
    Presents(d, cookie) || MayLock(d, t)
  }

  function Acquired(d: Dev, t: nat): Dev
  {
    d.(holder := Some(t), nested := if d.holder.None? then 0 else d.nested + 1)
  }

  /** Unlocking counts down, and is refused to anyone but the owner. */
  function Unlocked(d: Dev, t: nat): Dev {
    if d.holder != Some(t) then d
    else if d.nested > 0 then d.(nested := d.nested - 1)
    else d.(holder := None)
  }

  function CookieSet(d: Dev, jiffies: Half): Dev {
    d.(cookie := jiffies, flagHold := true)
  }

  /** `hg_crc_hold(.., 0)` under `lock`. */
  function Released(d: Dev, t: nat, cookie: Half): Dev {
    if Presents(d, cookie) then Unlocked(d.(cookie := 0, flagHold := false), t) else d
  }

  function ProgrammedFresh(d: Dev, cfg: Config): Dev {
    d.(engine := Idle, init := cfg.initVal, inv := cfg.xorOut, shape := cfg.shape)
  }

  function ProgrammedContinue(d: Dev): Dev {
    d.(init := XorWord(d.out, d.inv))
  }

  function Kicked(d: Dev, data: seq<Byte>): Dev {
    d.(engine := Running(data))
  }

  /** The engine finishes and `hg_crc_irq_handler` runs. */
  function Completed(up: Update, d: Dev): Dev
    requires d.engine.Running?
  {
    d.(engine := Idle, out := XorWord(Fold(up, d.shape, d.init, d.engine.data), d.inv), done := d.done + 1)
  }

  const RET_OK := 0
  const RET_ERR := -1
  const EBUSY := 16

  /** The driver as written, with each critical section a method, and the two entry points composed of
      them for a caller that nobody interrupts. */
  class HgCrc {
    var holder: Option<nat>
    var nested: nat
    var flagHold: bool
    var cookie: Half
    var done: nat
    var init: Word
    var inv: Word
    var shape: Shape
    var out: Word
    var engine: Engine
    const up: Update

    function View(): Dev
      reads this
    {
      Dev(holder, nested, flagHold, cookie, done, init, inv, shape, out, engine)
    }

    method Release(t: nat, c: Half) returns (ret: int, c': Half)
      modifies this
      ensures View() == Released(old(View()), t, c)
      ensures c' == cookie
      ensures ret == if Presents(old(View()), c) then RET_OK else RET_ERR
    {
      ret := RET_ERR;
      if flagHold && c == cookie {
        cookie := 0;
        flagHold := false;
        Unlock(t);
        ret := RET_OK;
      }
      c' := cookie;
    }

    /** `os_mutex_lock` on `hold`: with somebody else inside, the wait of 100 ticks runs out. */
    method Lock(t: nat) returns (ok: bool)
      modifies this
      ensures ok <==> MayLock(old(View()), t)
      ensures View() == if ok then Acquired(old(View()), t) else old(View())
    {
      if holder.Some? && holder.value != t {
        return false;
      }
      nested := if holder.None? then 0 else nested + 1;
      holder := Some(t);
      return true;
    }

    method Unlock(t: nat)
      modifies this
      ensures View() == Unlocked(old(View()), t)
    {
      if holder == Some(t) {
        if nested > 0 {
          nested := nested - 1;
        } else {
          holder := None;
        }
      }
    }

    /** `hg_crc_hold` from start to end: `t` is the calling thread, `jiffies` the low half of the clock. */
    method Hold(t: nat, c: Half, hold: bool, jiffies: Half) returns (ret: int, c': Half)
      modifies this
      ensures !hold ==> View() == Released(old(View()), t, c) && c' == cookie
      ensures !hold ==> (ret == RET_OK <==> Presents(old(View()), c))
      ensures hold && Presents(old(View()), c) ==> ret == RET_OK && View() == old(View()) && c' == c
      ensures hold && !Presents(old(View()), c) && !MayLock(old(View()), t) ==> ret == -EBUSY && View() == old(View()) && c' == c
      ensures hold && !Presents(old(View()), c) && MayLock(old(View()), t) ==>
                ret == RET_OK && c' == jiffies && View() == CookieSet(Acquired(old(View()), t), jiffies)
      // field by field
      ensures old(flagHold) && c == old(cookie) ==>
                if hold then holder == old(holder) && flagHold && cookie == c
                else !flagHold && cookie == 0 && (old(holder) == Some(t) && old(nested) == 0 ==> holder.None?)
      ensures (!old(flagHold) || c != old(cookie)) && hold && (old(holder).None? || old(holder) == Some(t)) ==>
                holder == Some(t) && flagHold && cookie == c' == jiffies
      ensures (!old(flagHold) || c != old(cookie)) && !hold ==>
                ret == RET_ERR && holder == old(holder) && flagHold == old(flagHold) && c' == cookie == old(cookie)
    {
      ret := RET_ERR;
      if hold {
        if !flagHold || c != cookie {
          var ok := Lock(t);
          if !ok {
            return -EBUSY, c;
          }
          cookie := jiffies;
          flagHold := true;
        }
        ret := RET_OK;
        c' := cookie;
      } else {
        ret, c' := Release(t, c);
      }
    }

    /** `os_sema_down(&dev->done, ..)`: a token already there is taken at once; otherwise the engine's
        completion is awaited, and `completes` says whether it comes in time. */
    method AwaitDone(completes: bool) returns (ok: bool)
      requires engine.Running?
      modifies this
      ensures ok == (old(done) > 0 || completes)
      ensures old(done) > 0 ==> View() == old(View()).(done := old(done) - 1)
      ensures old(done) == 0 && completes ==> View() == Completed(up, old(View())).(done := 0)
      ensures old(done) == 0 && !completes ==> View() == old(View())
    {
      if done > 0 {
        done := done - 1;
        return true;
      }
      if completes {
        out := XorWord(Fold(up, shape, init, engine.data), inv);
        engine := Idle;
        return true;
      }
      return false;
    }

    method CalcContinue(data: seq<Byte>, completes: bool) returns (ret: int, value: Word)
      modifies this
      ensures value == out
      ensures unchanged(`holder) && unchanged(`nested) && unchanged(`flagHold) && unchanged(`cookie)
      ensures ret == RET_OK <==> old(done) > 0 || completes
      ensures inv == old(inv) && shape == old(shape)
      ensures old(done) == 0 && completes ==> value == XorWord(Fold(up, shape, XorWord(old(out), inv), data), inv) && engine == Idle && done == 0
      ensures old(done) > 0 || !completes ==> value == old(out)
    {
      init := XorWord(out, inv);
      engine := Running(data);
      var ok := AwaitDone(completes);
      value := out;
      ret := if ok then RET_OK else RET_ERR;
    }

    /** The middle of `hg_crc_calc`: the unit is reset, programmed and started. */
    method CalcFresh(cfg: Config, data: seq<Byte>, completes: bool) returns (ret: int, value: Word)
      modifies this
      ensures value == out
      ensures unchanged(`holder) && unchanged(`nested) && unchanged(`flagHold) && unchanged(`cookie)
      ensures ret == if old(done) > 0 || completes then RET_OK else RET_ERR
      ensures inv == cfg.xorOut && shape == cfg.shape
      ensures old(done) == 0 && completes ==> value == Checksum(up, cfg, data) && engine == Idle && done == 0
      ensures old(done) > 0 || !completes ==> value == old(out)
    {
      engine := Idle;
      init := cfg.initVal;
      inv := cfg.xorOut;
      shape := cfg.shape;
      engine := Running(data);
      var ok := AwaitDone(completes);
      value := out;
      ret := if ok then RET_OK else RET_ERR;
    }

    /** `hg_crc_calc` from start to end. */
    method Calc(t: nat, c: Half, type_: nat, data: seq<Byte>, continue_: bool, jiffies: Half, completes: bool)
      returns (ret: int, value: Word, c': Half)
      modifies this
      ensures data == [] || type_ >= |CONFIGS| ==> ret == RET_ERR && View() == old(View()) && c' == c
      ensures data != [] && type_ < |CONFIGS| && !MayEnter(old(View()), t, c) ==>
                ret == -EBUSY && View() == old(View()) && c' == c
      ensures data != [] && type_ < |CONFIGS| && MayEnter(old(View()), t, c) ==>
                (ret == RET_OK <==> old(done) > 0 || completes)
      // A session keeps what it holds.
      ensures data != [] && type_ < |CONFIGS| && Presents(old(View()), c) ==>
                c' == c && holder == old(holder) && nested == old(nested) && flagHold && cookie == old(cookie)
      // A call that took the unit hands it back, completed or timed out, exactly when it is no continuation and
      // the cookie drawn is not the one it came with; otherwise it returns still holding the unit.
      ensures data != [] && type_ < |CONFIGS| && !Presents(old(View()), c) && MayLock(old(View()), t) ==>
                if !continue_ && jiffies != c
                then !flagHold && c' == cookie == 0 && holder == old(holder) && (holder.Some? ==> nested == old(nested))
                else c' == cookie == jiffies && Presents(View(), c') && holder == Some(t)
                     && nested == (if old(holder).None? then 0 else old(nested) + 1)
      // The value is the checksum when the semaphore was empty on entry; a token left over from an
      // earlier timeout makes the driver report the previous CRC_OUT instead.
      ensures ret == RET_OK && !continue_ ==>
                value == if old(done) == 0 then Checksum(up, CONFIGS[type_], data) else old(out)
      ensures ret == RET_OK && !continue_ && old(done) == 0 && |data| == 1 ==>
                value == XorWord(up(CONFIGS[type_].shape, CONFIGS[type_].initVal, data[0]), CONFIGS[type_].xorOut)
      ensures ret == RET_OK && continue_ && old(done) == 0 ==> value == XorWord(Fold(up, old(shape), XorWord(old(out), old(inv)), data), old(inv))
      ensures ret == RET_OK && !continue_ && old(done) == 0 ==>
                out == value && inv == CONFIGS[type_].xorOut && shape == CONFIGS[type_].shape && done == 0 && engine == Idle
      ensures ret == RET_OK && continue_ && old(done) == 0 ==>
                out == value && inv == old(inv) && shape == old(shape) && done == 0 && engine == Idle
    {
      value := 0;
      c' := c;
      if data == [] || type_ >= |CONFIGS| {
        return RET_ERR, value, c;
      }
      var cfg := CONFIGS[type_];
      var r;
      r, c' := Hold(t, c, true, jiffies);
      if r != RET_OK {
        return -EBUSY, value, c';
      }
      var hold := c == c';
      if continue_ {
        ret, value := CalcContinue(data, completes);
        return;
      }
      OneByteChecksum(up, cfg, data);
      ret, value := CalcFresh(cfg, data, completes);
      if !hold {
        r, c' := Release(t, c');
      }
    }

    /** A session of one fresh calculation and any number of continuations, given up at the first one that
        does not complete in time: if all do, it reports the checksum of all the data, whatever types the
        continuations name. It keeps the unit either way. */
    method Session(t: nat, c: Half, type_: nat, chunks: seq<seq<Byte>>, types: seq<nat>, completes: seq<bool>, jiffies: Half)
      returns (ok: bool, value: Word)
      requires Presents(View(), c) && done == 0 && type_ < |CONFIGS|
      requires 0 < |chunks| == |types| == |completes| && forall i :: 0 <= i < |chunks| ==> chunks[i] != [] && types[i] < |CONFIGS|
      modifies this
      ensures ok <==> forall i :: 0 <= i < |chunks| ==> completes[i]
      ensures ok ==> value == Checksum(up, CONFIGS[type_], Concat(chunks))
      ensures holder == old(holder) && nested == old(nested) && Presents(View(), c)
    {
      var cfg := CONFIGS[type_];
      var ret, c';
      ret, value, c' := Calc(t, c, type_, chunks[0], false, jiffies, completes[0]);
      if ret != RET_OK {
        return false, value;
      }
      assert Concat(chunks[..1]) == chunks[0] by {
        assert chunks[..1][..0] == [] && Concat(chunks[..1][..0]) == [];
      }
      for i := 1 to |chunks|
        invariant value == out == Checksum(up, cfg, Concat(chunks[..i]))
        invariant inv == cfg.xorOut && shape == cfg.shape && done == 0
        invariant holder == old(holder) && nested == old(nested) && Presents(View(), c)
        invariant forall k :: 0 <= k < i ==> completes[k]
      {
        ContinueChecksum(up, cfg, Concat(chunks[..i]), chunks[i]);
        assert chunks[..i + 1][..i] == chunks[..i];
        ret, value, c' := Calc(t, c, types[i], chunks[i], true, jiffies, completes[i]);
        if ret != RET_OK {
          return false, value;
        }
      }
      assert chunks[..|chunks|] == chunks;
      ok := true;
    }
  }

  function Concat(chunks: seq<seq<Byte>>): (r: seq<Byte>) {
    if chunks == [] then [] else Concat(chunks[..|chunks| - 1]) + chunks[|chunks| - 1]
  }
}
