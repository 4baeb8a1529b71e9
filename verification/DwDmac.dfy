/** The DesignWare DMA controller driver (sdk/driver/dma/dw_dmac.c) and the completion handlers its SPI and
    UART clients register (sdk/driver/spi/hgspi_dw.c, sdk/driver/uart/hguart.c). */
module DwDmac {

  /** A direction of a device: device number `dev` is used by one caller at a time. */
  datatype Kind = SpiTx | SpiRx | UartTx | UartRx
  datatype Role = Role(kind: Kind, dev: nat)

  const CHANNELS := 4

  /** `used`, `hdl` are the driver's; `running`, `rawTfr`, `rawErr` the hardware's; `sema` holds the counts of
      the clients' semaphores. `who` is a history variable: for whom the channel was last taken. */
  datatype Dmac = Dmac(used: seq<bool>, hdl: seq<Role>, running: seq<bool>, rawTfr: seq<bool>, rawErr: seq<bool>,
                       sema: map<Role, nat>, who: seq<Role>)

  predicate WellSized(d: Dmac) {
    |d.used| == |d.hdl| == |d.running| == |d.rawTfr| == |d.rawErr| == |d.who| == CHANNELS
  }

  function Count(d: Dmac, r: Role): (n: nat) {
    if r in d.sema then d.sema[r] else 0
  }

  /** The lowest channel at or above `from` that is not taken, or the number of channels. */
  function FirstFree(used: seq<bool>, from: nat): (ch: nat)
    requires from <= |used|
    ensures from <= ch <= |used|
    ensures ch < |used| ==> !used[ch]
    ensures forall c :: from <= c < ch ==> used[c]
    decreases |used| - from
  {
    if from == |used| || !used[from] then from else FirstFree(used, from + 1)
  }

  /** The section of `dw_dmac_xfer` with interrupts off; all channels taken means -EBUSY. */
  function Taken(d: Dmac, r: Role): (d': Dmac)
    requires WellSized(d)
    ensures WellSized(d')
  {
    var ch := FirstFree(d.used, 0);
    if ch == CHANNELS then d else d.(used := d.used[ch := true], who := d.who[ch := r])
  }

  /** The rest of `dw_dmac_xfer`: the handler is recorded and the channel enabled. */
  function Started(d: Dmac, r: Role, ch: nat): (d': Dmac)
    requires WellSized(d) && ch < CHANNELS
    ensures WellSized(d')
  {
    d.(hdl := d.hdl[ch := r], running := d.running[ch := true])
  }

  /** `dw_dmac_stop`. */
  function Stopped(d: Dmac, ch: nat): (d': Dmac)
    requires WellSized(d) && ch < CHANNELS
    ensures WellSized(d')
  {
    if d.used[ch] then d.(running := d.running[ch := false], used := d.used[ch := false]) else d
  }

  /** The client's handler: stop the channel, then up its semaphore. The UART receive handler has no
      semaphore to up. */
  function Handled(d: Dmac, ch: nat): (d': Dmac)
    requires WellSized(d) && ch < CHANNELS
    ensures WellSized(d')
  {
    var s, r := Stopped(d, ch), d.hdl[ch];
    if r.kind.UartRx? then s else s.(sema := s.sema[r := Count(s, r) + 1])
  }

  /** One turn of the loop in `dw_dmac_irq_handler`. */
  function IrqChannel(d: Dmac, ch: nat): (d': Dmac)
    requires WellSized(d) && ch < CHANNELS
    ensures WellSized(d')
  {
    var d1 := if d.rawTfr[ch] then Handled(d.(rawTfr := d.rawTfr[ch := false]), ch) else d;
    if d1.rawErr[ch] then Handled(d1.(rawErr := d1.rawErr[ch := false]), ch) else d1
  }

  function IrqUpTo(d: Dmac, n: nat): (d': Dmac)
    requires WellSized(d) && n <= CHANNELS
    ensures WellSized(d')
  {
    if n == 0 then d else IrqChannel(IrqUpTo(d, n - 1), n - 1)
  }

  predicate Pending(d: Dmac, ch: nat)
    requires WellSized(d) && ch < CHANNELS
  {
    d.rawTfr[ch] || d.rawErr[ch]
  }

  function Bit(b: bool): (n: nat) {
    if b then 1 else 0
  }

  /** The tokens owed to `r` by the interrupts pending on channels below `n`: one for each, done or failed. */
  function Owed(d: Dmac, n: nat, r: Role): (k: nat)
    requires WellSized(d) && n <= CHANNELS
  {
    if n == 0 then 0
    else Owed(d, n - 1, r)
         + if d.hdl[n - 1] == r && !r.kind.UartRx? then Bit(d.rawTfr[n - 1]) + Bit(d.rawErr[n - 1]) else 0
  }

  predicate ChannelServed(d: Dmac, d': Dmac, n: nat, ch: nat)
    requires WellSized(d) && WellSized(d') && ch < CHANNELS
  {
    if ch < n then
      && !d'.rawTfr[ch] && !d'.rawErr[ch]
      && d'.used[ch] == (d.used[ch] && !Pending(d, ch))
      && d'.running[ch] == (d.running[ch] && !(d.used[ch] && Pending(d, ch)))
    else
      && d'.rawTfr[ch] == d.rawTfr[ch] && d'.rawErr[ch] == d.rawErr[ch]
      && d'.used[ch] == d.used[ch] && d'.running[ch] == d.running[ch]
  }

  /** `d'` is `d` with the interrupts of the channels below `n` served: acknowledged, their channels stopped and
      free, every token they owe delivered, and nothing else changed. */
  ghost predicate Served(d: Dmac, d': Dmac, n: nat)
    requires WellSized(d) && n <= CHANNELS
  {
    && WellSized(d') && d'.hdl == d.hdl && d'.who == d.who
    && (forall ch {:trigger ChannelServed(d, d', n, ch)} :: 0 <= ch < CHANNELS ==> ChannelServed(d, d', n, ch))
    && (forall r {:trigger Count(d', r)} :: Count(d', r) == Count(d, r) + Owed(d, n, r))
  }

  /** The handler's loop serves the channels it has passed. */
  lemma {:induction false} LoopServes(d: Dmac, n: nat)
    requires WellSized(d) && n <= CHANNELS
    ensures Served(d, IrqUpTo(d, n), n)
  {
    if n > 0 {
      var d1 := IrqUpTo(d, n - 1);
      LoopServes(d, n - 1);
      assert ChannelServed(d, d1, n - 1, n - 1);
      TurnServes(d1, n - 1);
      TurnPays(d1, n - 1);
      forall ch | 0 <= ch < CHANNELS
        ensures ChannelServed(d, IrqUpTo(d, n), n, ch)
      {
        assert ChannelServed(d, d1, n - 1, ch);
      }
      forall r
        ensures Count(IrqUpTo(d, n), r) == Count(d, r) + Owed(d, n, r)
      {
        assert Count(d1, r) == Count(d, r) + Owed(d, n - 1, r);
      }
    }
  }

  /** One turn of it serves one channel. */
  lemma TurnServes(d: Dmac, ch: nat)
    requires WellSized(d) && ch < CHANNELS
    ensures var d' := IrqChannel(d, ch);
            && d'.hdl == d.hdl && d'.who == d.who
            && d'.rawTfr == d.rawTfr[ch := false] && d'.rawErr == d.rawErr[ch := false]
            && d'.used == d.used[ch := d.used[ch] && !Pending(d, ch)]
            && d'.running == d.running[ch := d.running[ch] && !(d.used[ch] && Pending(d, ch))]
  {
    var d0 := if d.rawTfr[ch] then d.(rawTfr := d.rawTfr[ch := false]) else d;
    var d1 := if d.rawTfr[ch] then Handled(d0, ch) else d0;
    assert d0.rawTfr == d.rawTfr[ch := false];
    HandledStops(d0, ch);
    var d2 := if d1.rawErr[ch] then d1.(rawErr := d1.rawErr[ch := false]) else d1;
    assert d2.rawErr == d.rawErr[ch := false];
    HandledStops(d2, ch);
  }

  lemma HandledStops(d: Dmac, ch: nat)
    requires WellSized(d) && ch < CHANNELS
    ensures var d' := Handled(d, ch);
            && d'.hdl == d.hdl && d'.who == d.who && d'.rawTfr == d.rawTfr && d'.rawErr == d.rawErr
            && d'.used == d.used[ch := false] && d'.running == d.running[ch := d.running[ch] && !d.used[ch]]
  {
  }

  lemma TurnPays(d: Dmac, ch: nat)
    requires WellSized(d) && ch < CHANNELS
    ensures forall r :: Count(IrqChannel(d, ch), r) == Count(d, r)
              + if d.hdl[ch] == r && !r.kind.UartRx? then Bit(d.rawTfr[ch]) + Bit(d.rawErr[ch]) else 0
  {
    var d1 := if d.rawTfr[ch] then Handled(d.(rawTfr := d.rawTfr[ch := false]), ch) else d;
    assert d1.rawErr == d.rawErr && d1.hdl == d.hdl;
  }

  const EBUSY := 16
  const RET_OK := 0
  const RET_ERR := -1

  /** `DMA_SLAVE_BUSWIDTH_8_BYTES`. */
  const WIDTH_8_BYTES := 3

  class Controller {
    var isOpen: bool
    var used: seq<bool>
    var hdl: seq<Role>
    var running: seq<bool>
    var rawTfr: seq<bool>
    var rawErr: seq<bool>
    var sema: map<Role, nat>
    ghost var who: seq<Role>

    ghost function View(): Dmac
      reads this
    {
      Dmac(used, hdl, running, rawTfr, rawErr, sema, who)
    }

    /** `dw_dmac_xfer`; `known` says whether the direction is one of the four. The interrupt that may run in
        between is left to the interleaving model. A width the controller cannot do is noticed only after the
        channel has been taken, and the channel is not given back. */
    method Xfer(r: Role, width: nat, known: bool) returns (ret: int)
      requires WellSized(View())
      modifies this
      ensures WellSized(View()) && isOpen == old(isOpen)
      ensures var ch := FirstFree(old(used), 0);
              if !isOpen then ret == RET_ERR && View() == old(View())
              else if ch == CHANNELS then ret == -EBUSY && View() == old(View())
              else if width >= WIDTH_8_BYTES then ret == RET_ERR && View() == Taken(old(View()), r)
              else if !known then ret == RET_ERR && View() == old(View())
              else ret == ch && View() == Started(Taken(old(View()), r), r, ch)
      // field by field, once the channel is granted
      ensures ret >= 0 ==>
                && ret < CHANNELS && !old(used)[ret] && (forall c :: 0 <= c < ret ==> old(used)[c])
                && used == old(used)[ret := true] && hdl == old(hdl)[ret := r] && running == old(running)[ret := true]
                && rawTfr == old(rawTfr) && rawErr == old(rawErr) && sema == old(sema)
    {
      if !isOpen {
        return RET_ERR;
      }
      ghost var before := who;
      var ch := 0;
      while ch < CHANNELS
        invariant ch <= CHANNELS && View() == old(View()) && FirstFree(used, ch) == FirstFree(used, 0)
      {
        if !used[ch] {
          used := used[ch := true];
          who := who[ch := r];
          break;
        }
        ch := ch + 1;
      }
      if ch >= CHANNELS {
        return -EBUSY;
      }
      if width >= WIDTH_8_BYTES {
        return RET_ERR;
      }
      if !known {
        used := used[ch := false];
        who := before;
        return RET_ERR;
      }
      hdl := hdl[ch := r];
      running := running[ch := true];
      return ch;
    }

    /** `dw_dmac_stop`: the channel is free and, if it was taken, no longer runs; the others are untouched. */
    method Stop(ch: nat)
      requires WellSized(View()) && ch < CHANNELS
      modifies this
      ensures View() == Stopped(old(View()), ch) && isOpen == old(isOpen)
      ensures !used[ch] && running[ch] == (old(running[ch]) && !old(used[ch]))
      ensures forall c :: 0 <= c < CHANNELS && c != ch ==> used[c] == old(used[c]) && running[c] == old(running[c])
      ensures rawTfr == old(rawTfr) && rawErr == old(rawErr) && hdl == old(hdl) && sema == old(sema)
    {
      if used[ch] {
        running := running[ch := false];
        used := used[ch := false];
      }
    }

    method CallHandler(ch: nat)
      requires WellSized(View()) && ch < CHANNELS
      modifies this
      ensures View() == Handled(old(View()), ch) && isOpen == old(isOpen)
    {
      var r := hdl[ch];
      Stop(ch);
      if !r.kind.UartRx? {
        sema := sema[r := (if r in sema then sema[r] else 0) + 1];
      }
    }

    /** `dw_dmac_irq_handler`: every pending interrupt of every channel is served. */
    method IrqHandler()
      requires WellSized(View())
      modifies this
      ensures View() == IrqUpTo(old(View()), CHANNELS) && isOpen == old(isOpen)
      ensures Served(old(View()), View(), CHANNELS)
    {
      LoopServes(View(), CHANNELS);
      for ch := 0 to CHANNELS
        invariant View() == IrqUpTo(old(View()), ch) && isOpen == old(isOpen)
      {
        if rawTfr[ch] {
          rawTfr := rawTfr[ch := false];
          CallHandler(ch);
        }
        if rawErr[ch] {
          rawErr := rawErr[ch := false];
          CallHandler(ch);
        }
      }
    }
  }
}
