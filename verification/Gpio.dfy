/** The GPIO driver (sdk/driver/gpio/hggpio_v2.c): per-pin settings packed into 32-bit registers, two bits
    or four bits or one bit to a pin. */
module Gpio {

  const EINVAL := 22
  const RET_OK := 0

  // ---- pin numbers as shift counts ----------------------------------------------------------------

  /** Pin number `j` as a machine word. */
  function Ix(j: nat): (b: bv32)
    requires j < 32
    ensures b < 32
  {
    if j < 16 then Ix16(j) else 16 + Ix16(j - 16)
  }

  function Ix16(j: nat): (b: bv32)
    requires j < 16
    ensures b < 16
  {
    if j < 8 then Ix8(j) else 8 + Ix8(j - 8)
  }

  function Ix8(j: nat): (b: bv32)
    requires j < 8
    ensures b < 8
  {
    if j < 4 then (if j < 2 then (if j == 0 then 0 else 1) else (if j == 2 then 2 else 3))
    else (if j < 6 then (if j == 4 then 4 else 5) else (if j == 6 then 6 else 7))
  }

  lemma Ix8Injective(j: nat, k: nat)
    requires j < 8 && k < 8
    ensures Ix8(j) == Ix8(k) <==> j == k
  {
  }

  lemma Ix16Injective(j: nat, k: nat)
    requires j < 16 && k < 16
    ensures Ix16(j) == Ix16(k) <==> j == k
  {
    if j < 8 && k < 8 {
      Ix8Injective(j, k);
    } else if 8 <= j && 8 <= k {
      Ix8Injective(j - 8, k - 8);
    }
  }

  lemma IxInjective(j: nat, k: nat)
    requires j < 32 && k < 32
    ensures Ix(j) == Ix(k) <==> j == k
  {
    if j < 16 && k < 16 {
      Ix16Injective(j, k);
    } else if 16 <= j && 16 <= k {
      Ix16Injective(j - 16, k - 16);
    }
  }

  // ---- packed fields ------------------------------------------------------------------------------

  /** Field `j` of a register of eight 4-bit fields. */
  function Nib(reg: bv32, j: bv32): (v: bv32)
    requires j < 8
  {
    (reg >> (4 * j)) & 0xF
  }

  function ClearNib(reg: bv32, j: bv32): (r: bv32)
    requires j < 8
  {
    reg & !(0xF << (4 * j))
  }

  function Merge(reg: bv32, j: bv32, w: bv32): (r: bv32)
    requires j < 8
  {
    (reg & !(0xF << (4 * j))) | w
  }

  /** Clear field `j`, then or the value in, unmasked as the driver does. */
  function SetNib(reg: bv32, j: bv32, v: bv32): (r: bv32)
    requires j < 8
  {
    Merge(reg, j, v << (4 * j))
  }

  lemma ClearNibAt(reg: bv32, j: bv32, k: bv32)
    requires j < 8 && k < 8
    ensures Nib(ClearNib(reg, j), k) == if j == k then 0 else Nib(reg, k)
  {
  }

  lemma SetNibAt(reg: bv32, j: bv32, v: bv32, k: bv32)
    requires j < 8 && k < 8 && v < 16
    ensures Nib(SetNib(reg, j, v), k) == if j == k then v else Nib(reg, k)
  {
  }

  /** Field `j` of a register of sixteen 2-bit fields. */
  function Two(reg: bv32, j: bv32): (v: bv32)
    requires j < 16
  {
    (reg >> (2 * j)) & 3
  }

  function ClearTwo(reg: bv32, j: bv32): (r: bv32)
    requires j < 16
  {
    reg & !(3 << (2 * j))
  }

  function FillTwo(reg: bv32, j: bv32): (r: bv32)
    requires j < 16
  {
    reg | (3 << (2 * j))
  }

  function SetTwo(reg: bv32, j: bv32, v: bv32): (r: bv32)
    requires j < 16
  {
    (reg & !(3 << (2 * j))) | (v << (2 * j))
  }

  lemma ClearTwoAt(reg: bv32, j: bv32, k: bv32)
    requires j < 16 && k < 16
    ensures Two(ClearTwo(reg, j), k) == if j == k then 0 else Two(reg, k)
  {
  }

  lemma FillTwoAt(reg: bv32, j: bv32, k: bv32)
    requires j < 16 && k < 16
    ensures Two(FillTwo(reg, j), k) == if j == k then 3 else Two(reg, k)
  {
  }

  lemma SetTwoAt(reg: bv32, j: bv32, v: bv32, k: bv32)
    requires j < 16 && k < 16 && v < 4
    ensures Two(SetTwo(reg, j, v), k) == if j == k then v else Two(reg, k)
  {
  }

  function Bit(reg: bv32, j: bv32): (v: bool)
    requires j < 32
  {
    reg & (1 << j) != 0
  }

  function SetBit(reg: bv32, j: bv32, v: bool): (r: bv32)
    requires j < 32
  {
    if v then reg | (1 << j) else reg & !(1 << j)
  }

  lemma SetBitAt(reg: bv32, j: bv32, v: bool, k: bv32)
    requires j < 32 && k < 32
    ensures Bit(SetBit(reg, j, v), k) == if j == k then v else Bit(reg, k)
  {
    RaiseBitAt(reg, j, k);
    ClearBitAt(reg, j, k);
  }

  lemma RaiseBitAt(reg: bv32, j: bv32, k: bv32)
    requires j < 32 && k < 32
    ensures Bit(reg | (1 << j), k) == (j == k || Bit(reg, k))
  {
  }

  lemma ClearBitAt(reg: bv32, j: bv32, k: bv32)
    requires j < 32 && k < 32
    ensures Bit(reg & !(1 << j), k) == (j != k && Bit(reg, k))
  {
  }

  /** Four registers of eight pins, two registers of sixteen. */
  datatype Quad = Quad(r0: bv32, r1: bv32, r2: bv32, r3: bv32)
  datatype Pair = Pair(r0: bv32, r1: bv32)

  function Bank(q: Quad, b: nat): (reg: bv32)
    requires b < 4
  {
    if b == 0 then q.r0 else if b == 1 then q.r1 else if b == 2 then q.r2 else q.r3
  }

  function WithBank(q: Quad, b: nat, reg: bv32): (r: Quad)
    requires b < 4
  {
    if b == 0 then q.(r0 := reg) else if b == 1 then q.(r1 := reg) else if b == 2 then q.(r2 := reg) else q.(r3 := reg)
  }

  function Field(q: Quad, i: nat): (v: bv32)
    requires i < 32
  {
    Nib(Bank(q, i / 8), Ix8(i % 8))
  }

  /** The `switch (pin / 8)` found in the pull and drive-strength functions. */
  function SetField(q: Quad, i: nat, v: bv32): (r: Quad)
    requires i < 32
  {
    WithBank(q, i / 8, SetNib(Bank(q, i / 8), Ix8(i % 8), v))
  }

  function ClearField(q: Quad, i: nat): (r: Quad)
    requires i < 32
  {
    WithBank(q, i / 8, ClearNib(Bank(q, i / 8), Ix8(i % 8)))
  }

  lemma WithBankAt(q: Quad, b: nat, reg: bv32, c: nat)
    requires b < 4 && c < 4
    ensures Bank(WithBank(q, b, reg), c) == if b == c then reg else Bank(q, c)
  {
  }

  lemma ClearFieldAt(q: Quad, i: nat, k: nat)
    requires i < 32 && k < 32
    ensures Field(ClearField(q, i), k) == if i == k then 0 else Field(q, k)
  {
    WithBankAt(q, i / 8, ClearNib(Bank(q, i / 8), Ix8(i % 8)), k / 8);
    Ix8Injective(i % 8, k % 8);
    ClearNibAt(Bank(q, i / 8), Ix8(i % 8), Ix8(k % 8));
  }

  lemma SetFieldAt(q: Quad, i: nat, v: bv32, k: nat)
    requires i < 32 && k < 32 && v < 16
    ensures Field(SetField(q, i, v), k) == if i == k then v else Field(q, k)
  {
    WithBankAt(q, i / 8, SetNib(Bank(q, i / 8), Ix8(i % 8), v), k / 8);
    Ix8Injective(i % 8, k % 8);
    SetNibAt(Bank(q, i / 8), Ix8(i % 8), v, Ix8(k % 8));
  }

  function HalfOf(m: Pair, b: nat): (reg: bv32) {
    if b != 0 then m.r1 else m.r0
  }

  function WithHalf(m: Pair, b: nat, reg: bv32): (r: Pair) {
    if b != 0 then m.(r1 := reg) else m.(r0 := reg)
  }

  function ModeField(m: Pair, i: nat): (v: bv32)
    requires i < 32
  {
    Two(HalfOf(m, i / 16), Ix16(i % 16))
  }

  lemma WithHalfAt(m: Pair, b: nat, r: bv32, c: nat)
    requires b < 2 && c < 2
    ensures HalfOf(WithHalf(m, b, r), c) == if b == c then r else HalfOf(m, c)
  {
  }

  /** A pin's mode field as the driver makes it 0, 1 or 3; `if (pin / 16)` chooses the second register. */
  function SetModeField(m: Pair, i: nat, v: bv32): (r: Pair)
    requires i < 32 && v < 4
  {
    var reg, j := HalfOf(m, i / 16), Ix16(i % 16);
    WithHalf(m, i / 16, if v == 0 then ClearTwo(reg, j) else if v == 3 then FillTwo(reg, j) else SetTwo(reg, j, v))
  }

  lemma SetModeFieldAt(m: Pair, i: nat, v: bv32, k: nat)
    requires i < 32 && k < 32 && v < 4
    ensures ModeField(SetModeField(m, i, v), k) == if i == k then v else ModeField(m, k)
  {
    var reg, j := HalfOf(m, i / 16), Ix16(i % 16);
    WithHalfAt(m, i / 16, if v == 0 then ClearTwo(reg, j) else if v == 3 then FillTwo(reg, j) else SetTwo(reg, j, v), k / 16);
    Ix16Injective(i % 16, k % 16);
    ClearTwoAt(reg, j, Ix16(k % 16));
    FillTwoAt(reg, j, Ix16(k % 16));
    SetTwoAt(reg, j, v, Ix16(k % 16));
  }

  // ---- the registers and the pins they stand for --------------------------------------------------

  datatype Hw = Hw(mode: Pair, afr: Quad, pu: Quad, pd: Quad, dr: Quad, od: bv32, data: bv32)

  datatype Pin = Pin(mode: bv32, afr: bv32, pu: bv32, pd: bv32, dr: bv32, od: bool, data: bool)

  function PinOf(hw: Hw, i: nat): (p: Pin)
    requires i < 32
  {
    Pin(ModeField(hw.mode, i), Field(hw.afr, i), Field(hw.pu, i), Field(hw.pd, i), Field(hw.dr, i),
        Bit(hw.od, Ix(i)), Bit(hw.data, Ix(i)))
  }

  datatype PullMode = PullNone | PullUp | PullDown | OdPullNone | OdPullUp | OdDropNone | OdDropDown

  /** Requests, one per entry point. */
  datatype Cmd =
    | Dir(direction: nat)
    | SetMode(mode: PullMode, level: bv32)
    | Drive(strength: bv32)
    | Set(value: bool)
    | Analog(value: bool)
    | Afio(sel: bv32)

  /** Refused requests change nothing and return -EINVAL. */
  predicate Refused(c: Cmd, dsMax: bv32) {
    match c
    case Dir(d) => d > 1
    case SetMode(m, _) => m.OdDropNone?
    case Drive(s) => s > dsMax
    case _ => false
  }

  /** Values that fit their field; nothing in the driver checks the pull level and the function number. */
  predicate FieldSized(c: Cmd) {
    match c
    case SetMode(_, level) => level < 16
    case Afio(sel) => sel < 16
    case _ => true
  }

  predicate OpenDrain(m: PullMode) {
    m.OdPullNone? || m.OdPullUp? || m.OdDropDown?
  }

  /** Pull-up and pull-down are separate fields: choosing one leaves the other as it was. */
  function PullStep(p: Pin, m: PullMode, level: bv32): (p': Pin) {
    match m
    case PullNone => p.(pu := 0, pd := 0)
    case OdPullNone => p.(pu := 0, pd := 0)
    case PullUp => p.(pu := level)
    case OdPullUp => p.(pu := level)
    case PullDown => p.(pd := level)
    case OdDropDown => p.(pd := level)
    case OdDropNone => p
  }

  /** What a request means for the one pin it names. */
  function PinStep(p: Pin, c: Cmd): (p': Pin) {
    match c
    case Dir(d) => p.(mode := if d == 0 then 0 else 1)
    case SetMode(m, level) =>
      if m.OdDropNone? then p else PullStep(p.(od := OpenDrain(m)), m, level)
    case Drive(s) => p.(dr := s)
    case Set(v) => p.(data := v)
    case Analog(v) => p.(mode := if v then 3 else 1)
    case Afio(sel) => p.(afr := sel, mode := 2)
  }

  // ---- the bit spreading in hggpio_v2_afio --------------------------------------------------------

  /** Bit p of the low sixteen moves to bit 2p. */
  function Spread(x: bv32): (r: bv32) {
    var m1 := ((x & 0xFF00) << 8) | (x & 0x00FF);
    var m2 := ((m1 & 0x00F000F0) << 4) | (m1 & 0x000F000F);
    var m3 := ((m2 & 0x0C0C0C0C) << 2) | (m2 & 0x03030303);
    ((m3 & 0x22222222) << 1) | (m3 & 0x11111111)
  }

  /** The masks the driver derives from a pin's mode bit. */
  function AfrMask(pinMode: bv32): (r: bv32) {
    var a0 := (pinMode >> 15) | pinMode;
    var a1 := ((a0 & 0xFF00) << 8) | (a0 & 0x00FF);
    var a2 := ((a1 & 0x00F000F0) << 4) | (a1 & 0x000F000F);
    ((a2 & 0x0C0C0C0C) << 2) | (a2 & 0x03030303)
  }

  function AfrLow(pinMode: bv32): (r: bv32) { AfrMask(pinMode) & 0x11111111 }

  function AfrHigh(pinMode: bv32): (r: bv32) { (AfrMask(pinMode) >> 1) & 0x11111111 }

  /** For one pin the spread bits are exactly its mode field's low bit and its function field's low bit. */
  lemma SpreadPin(p: bv32)
    requires p < 16
    ensures Spread(1 << p) == 1 << (2 * p)
    ensures AfrLow(1 << (2 * p)) == if p < 8 then 1 << (4 * p) else 0
    ensures AfrHigh(1 << (2 * p)) == if p < 8 then 0 else 1 << (4 * (p - 8))
  {
  }

  /** The register update with such a mask sets the mask's field, or nothing. */
  lemma MaskedUpdate(reg: bv32, j: bv32, sel: bv32)
    requires j < 8
    ensures (reg & !((1 << (4 * j)) * 0xF)) | ((1 << (4 * j)) * sel) == SetNib(reg, j, sel)
    ensures (reg & !(0 * 0xF)) | (0 * sel) == reg
  {
  }

  /** The mode update of the alternate function: whatever the field held, it becomes 2. */
  lemma ModeUpdate(reg: bv32, j: bv32, k: bv32)
    requires j < 16 && k < 16
    ensures Two((reg & !(1 << (2 * j))) | ((1 << (2 * j)) << 1), k) == if k == j then 2 else Two(reg, k)
  {
  }

  // ---- the driver ---------------------------------------------------------------------------------

  /** `pin_num[0]`, `pin_num[1]`, and the strongest drive, GPIO_DS_53MA. */
  datatype Config = Config(first: nat, last: nat, dsMax: bv32)

  /** At most 32 pins, and drive strengths that fit their field. */
  predicate Configured(g: Config) {
    g.first <= g.last < g.first + 32 && g.dsMax < 16
  }

  predicate Mine(g: Config, pin: nat) {
    g.first <= pin <= g.last
  }

  /** The register writes of `hggpio_v2_set_pull`. */
  function SetPull(hw: Hw, p: nat, m: PullMode, level: bv32): (r: Hw)
    requires p < 32
  {
    match m
    case PullNone => hw.(pd := ClearField(hw.pd, p), pu := ClearField(hw.pu, p))
    case OdPullNone => hw.(pd := ClearField(hw.pd, p), pu := ClearField(hw.pu, p))
    case PullUp => hw.(pu := SetField(hw.pu, p, level))
    case OdPullUp => hw.(pu := SetField(hw.pu, p, level))
    case PullDown => hw.(pd := SetField(hw.pd, p, level))
    case OdDropDown => hw.(pd := SetField(hw.pd, p, level))
    case OdDropNone => hw
  }

  /** `hggpio_v2_set_mode`: a mode it does not know stops it before the first write. */
  function ModeWrites(hw: Hw, p: nat, m: PullMode, level: bv32): (r: Hw)
    requires p < 32
  {
    if m.OdDropNone? then hw else SetPull(hw.(od := SetBit(hw.od, Ix(p), OpenDrain(m))), p, m, level)
  }

  /** The writes of `hggpio_v2_afio` to one function register and to the mode register. */
  function AfioAfr(reg: bv32, mask: bv32, sel: bv32): (r: bv32) {
    (reg & !(mask * 0xF)) | (mask * sel)
  }

  function AfioMode(reg: bv32, pinMode: bv32): (r: bv32) {
    (reg & !pinMode) | (pinMode << 1)
  }

  /** `pin_mode`, from `pin_bits` or from its upper half. */
  function PinMode(p: nat): (m: bv32)
    requires p < 32
  {
    if p <= 15 then Spread(1 << Ix(p)) else Spread((1 << Ix(p)) >> 16)
  }

  /** The two function registers and the mode register of the pin's half. */
  function AfioWrites(hw: Hw, p: nat, sel: bv32): (r: Hw)
    requires p < 32
  {
    var h, m := p / 16, PinMode(p);
    hw.(afr := AfioBanks(hw.afr, h, AfrLow(m), AfrHigh(m), sel),
        mode := WithHalf(hw.mode, h, AfioMode(HalfOf(hw.mode, h), m)))
  }

  function AfioBanks(q: Quad, h: nat, low: bv32, high: bv32, sel: bv32): (r: Quad)
    requires h < 2
  {
    WithBank(WithBank(q, 2 * h, AfioAfr(Bank(q, 2 * h), low, sel)), 2 * h + 1, AfioAfr(Bank(q, 2 * h + 1), high, sel))
  }

  /** The writes of one accepted request; `p` counts from the controller's first pin. */
  function Writes(hw: Hw, p: nat, c: Cmd): (r: Hw)
    requires p < 32
  {
    match c
    case Dir(d) => hw.(mode := SetModeField(hw.mode, p, if d == 0 then 0 else 1))
    case SetMode(m, level) => ModeWrites(hw, p, m, level)
    case Drive(s) => hw.(dr := SetField(hw.dr, p, s))
    case Set(v) => hw.(data := SetBit(hw.data, Ix(p), v))
    case Analog(v) => hw.(mode := SetModeField(hw.mode, p, if v then 3 else 1))
    case Afio(sel) => AfioWrites(hw, p, sel)
  }

  /** A request through its entry point: a pin of another controller and a refused request change nothing. */
  function Execute(g: Config, hw: Hw, pin: nat, c: Cmd): (r: (Hw, int))
    requires Configured(g)
  {
    if !Mine(g, pin) || Refused(c, g.dsMax) then (hw, -EINVAL) else (Writes(hw, pin - g.first, c), RET_OK)
  }

  // ---- each request concerns one pin --------------------------------------------------------------

  lemma PinModeIs(p: nat)
    requires p < 32
    ensures PinMode(p) == 1 << (2 * Ix16(p % 16))
  {
    var j := Ix16(p % 16);
    SpreadPin(j);
    if p > 15 {
      assert p % 16 == p - 16;
      UpperHalf(j);
    } else {
      assert p % 16 == p;
    }
  }

  lemma UpperHalf(j: bv32)
    requires j < 16
    ensures (1 as bv32 << (16 + j)) >> 16 == 1 as bv32 << j
  {
  }

  lemma MaskSets(reg: bv32, m: bv32, j: bv32, sel: bv32)
    requires j < 8 && m == 1 << (4 * j)
    ensures AfioAfr(reg, m, sel) == SetNib(reg, j, sel)
  {
    MaskedUpdate(reg, j, sel);
  }

  lemma EmptyMaskKeeps(reg: bv32, m: bv32, sel: bv32)
    requires m == 0
    ensures AfioAfr(reg, m, sel) == reg
  {
    MaskedUpdate(reg, 0, sel);
  }

  lemma MasksLow(p: nat)
    requires p < 32 && p % 16 < 8
    ensures AfrLow(PinMode(p)) == 1 << (4 * Ix8(p % 8)) && AfrHigh(PinMode(p)) == 0
  {
    PinModeIs(p);
    assert p % 8 == p % 16;
    SpreadPin(Ix8(p % 8));
  }

  lemma MasksHigh(p: nat)
    requires p < 32 && p % 16 >= 8
    ensures AfrLow(PinMode(p)) == 0 && AfrHigh(PinMode(p)) == 1 << (4 * Ix8(p % 8))
  {
    PinModeIs(p);
    assert p % 8 == p % 16 - 8;
    SpreadHigh(Ix8(p % 8));
  }

  lemma SpreadHigh(j: bv32)
    requires j < 8
    ensures AfrLow(1 << (2 * (8 + j))) == 0 && AfrHigh(1 << (2 * (8 + j))) == 1 << (4 * j)
  {
  }

  lemma BanksLow(q: Quad, h: nat, low: bv32, high: bv32, j: nat, sel: bv32)
    requires h < 2 && j < 8 && low == 1 << (4 * Ix8(j)) && high == 0
    ensures AfioBanks(q, h, low, high, sel) == WithBank(q, 2 * h, SetNib(Bank(q, 2 * h), Ix8(j), sel))
  {
    MaskSets(Bank(q, 2 * h), low, Ix8(j), sel);
    EmptyMaskKeeps(Bank(q, 2 * h + 1), high, sel);
  }

  lemma BanksHigh(q: Quad, h: nat, low: bv32, high: bv32, j: nat, sel: bv32)
    requires h < 2 && j < 8 && low == 0 && high == 1 << (4 * Ix8(j))
    ensures AfioBanks(q, h, low, high, sel) == WithBank(q, 2 * h + 1, SetNib(Bank(q, 2 * h + 1), Ix8(j), sel))
  {
    EmptyMaskKeeps(Bank(q, 2 * h), low, sel);
    MaskSets(Bank(q, 2 * h + 1), high, Ix8(j), sel);
  }

  /** `hggpio_v2_afio` sets exactly the pin's function field, whatever it held. */
  lemma AfioField(hw: Hw, p: nat, sel: bv32)
    requires p < 32
    ensures AfioWrites(hw, p, sel).afr == SetField(hw.afr, p, sel)
  {
    var h, m := p / 16, PinMode(p);
    if p % 16 < 8 {
      assert p / 8 == 2 * h && p % 8 == p % 16;
      MasksLow(p);
      BanksLow(hw.afr, h, AfrLow(m), AfrHigh(m), p % 8, sel);
    } else {
      assert p / 8 == 2 * h + 1 && p % 8 == p % 16 - 8;
      MasksHigh(p);
      BanksHigh(hw.afr, h, AfrLow(m), AfrHigh(m), p % 8, sel);
    }
  }

  lemma AfioModeField(reg: bv32, pinMode: bv32, j: bv32, k: bv32)
    requires j < 16 && k < 16 && pinMode == 1 << (2 * j)
    ensures Two(AfioMode(reg, pinMode), k) == if k == j then 2 else Two(reg, k)
  {
    ModeUpdate(reg, j, k);
  }

  /** ... and its mode field, to 2. */
  lemma AfioModeAt(hw: Hw, p: nat, sel: bv32, i: nat)
    requires p < 32 && i < 32
    ensures ModeField(AfioWrites(hw, p, sel).mode, i) == if i == p then 2 else ModeField(hw.mode, i)
  {
    PinModeIs(p);
    AfioHalfAt(hw.mode, p, PinMode(p), i);
  }

  lemma AfioHalfAt(m: Pair, p: nat, pinMode: bv32, i: nat)
    requires p < 32 && i < 32 && pinMode == 1 << (2 * Ix16(p % 16))
    ensures ModeField(WithHalf(m, p / 16, AfioMode(HalfOf(m, p / 16), pinMode)), i)
         == if i == p then 2 else ModeField(m, i)
  {
    WithHalfAt(m, p / 16, AfioMode(HalfOf(m, p / 16), pinMode), i / 16);
    if p / 16 == i / 16 {
      Ix16Injective(p % 16, i % 16);
      AfioModeField(HalfOf(m, i / 16), pinMode, Ix16(p % 16), Ix16(i % 16));
    }
  }

  lemma SetPullAt(hw: Hw, p: nat, m: PullMode, level: bv32, i: nat)
    requires p < 32 && i < 32 && level < 16
    ensures PinOf(SetPull(hw, p, m, level), i)
         == if i == p then PullStep(PinOf(hw, i), m, level) else PinOf(hw, i)
  {
    match m
    case PullNone =>
      ClearFieldAt(hw.pu, p, i);
      ClearFieldAt(hw.pd, p, i);
    case OdPullNone =>
      ClearFieldAt(hw.pu, p, i);
      ClearFieldAt(hw.pd, p, i);
    case PullUp => SetFieldAt(hw.pu, p, level, i);
    case OdPullUp => SetFieldAt(hw.pu, p, level, i);
    case PullDown => SetFieldAt(hw.pd, p, level, i);
    case OdDropDown => SetFieldAt(hw.pd, p, level, i);
    case OdDropNone =>
  }

  lemma OpenDrainAt(hw: Hw, p: nat, on: bool, i: nat)
    requires p < 32 && i < 32
    ensures PinOf(hw.(od := SetBit(hw.od, Ix(p), on)), i)
         == if i == p then PinOf(hw, i).(od := on) else PinOf(hw, i)
  {
    IxInjective(p, i);
    SetBitAt(hw.od, Ix(p), on, Ix(i));
  }

  lemma SetModeAt(hw: Hw, p: nat, m: PullMode, level: bv32, i: nat)
    requires p < 32 && i < 32 && level < 16 && !m.OdDropNone?
    ensures PinOf(ModeWrites(hw, p, m, level), i)
         == if i == p then PinStep(PinOf(hw, i), SetMode(m, level)) else PinOf(hw, i)
  {
    var hw' := hw.(od := SetBit(hw.od, Ix(p), OpenDrain(m)));
    OpenDrainAt(hw, p, OpenDrain(m), i);
    SetPullAt(hw', p, m, level, i);
  }

  lemma SetDataAt(hw: Hw, p: nat, v: bool, i: nat)
    requires p < 32 && i < 32
    ensures PinOf(hw.(data := SetBit(hw.data, Ix(p), v)), i)
         == if i == p then PinOf(hw, i).(data := v) else PinOf(hw, i)
  {
    IxInjective(p, i);
    SetBitAt(hw.data, Ix(p), v, Ix(i));
  }

  lemma ModePin(hw: Hw, p: nat, v: bv32, i: nat)
    requires p < 32 && i < 32 && v < 4
    ensures PinOf(hw.(mode := SetModeField(hw.mode, p, v)), i)
         == if i == p then PinOf(hw, i).(mode := v) else PinOf(hw, i)
  {
    SetModeFieldAt(hw.mode, p, v, i);
  }

  lemma DrivePin(hw: Hw, p: nat, s: bv32, i: nat)
    requires p < 32 && i < 32 && s < 16
    ensures PinOf(hw.(dr := SetField(hw.dr, p, s)), i)
         == if i == p then PinOf(hw, i).(dr := s) else PinOf(hw, i)
  {
    SetFieldAt(hw.dr, p, s, i);
  }

  lemma AfioPin(hw: Hw, p: nat, sel: bv32, i: nat)
    requires p < 32 && i < 32 && sel < 16
    ensures PinOf(AfioWrites(hw, p, sel), i)
         == if i == p then PinOf(hw, i).(afr := sel, mode := 2) else PinOf(hw, i)
  {
    AfioField(hw, p, sel);
    SetFieldAt(hw.afr, p, sel, i);
    AfioModeAt(hw, p, sel, i);
  }

  /** An accepted request changes the record of its pin as it should, and no other. */
  lemma WritesPin(hw: Hw, p: nat, c: Cmd, dsMax: bv32, i: nat)
    requires p < 32 && i < 32 && dsMax < 16 && !Refused(c, dsMax) && FieldSized(c)
    ensures PinOf(Writes(hw, p, c), i) == if i == p then PinStep(PinOf(hw, i), c) else PinOf(hw, i)
  {
    match c
    case Dir(d) => ModePin(hw, p, if d == 0 then 0 else 1, i);
    case SetMode(m, level) => SetModeAt(hw, p, m, level, i);
    case Drive(s) => DrivePin(hw, p, s, i);
    case Set(v) => SetDataAt(hw, p, v, i);
    case Analog(v) => ModePin(hw, p, if v then 3 else 1, i);
    case Afio(sel) => AfioPin(hw, p, sel, i);
  }

  /** One request, whoever it is addressed to, as pin `i` sees it. */
  lemma ExecutePin(g: Config, hw: Hw, pin: nat, c: Cmd, i: nat)
    requires Configured(g) && i < 32 && FieldSized(c)
    ensures PinOf(Execute(g, hw, pin, c).0, i)
         == if Mine(g, pin) && pin - g.first == i && !Refused(c, g.dsMax) then PinStep(PinOf(hw, i), c) else PinOf(hw, i)
  {
    if Mine(g, pin) && !Refused(c, g.dsMax) {
      WritesPin(hw, pin - g.first, c, g.dsMax, i);
    }
  }

  // ---- what each request leaves, field by field ---------------------------------------------------

  /** The open-drain bit: clear after the three plain modes, set after the three open-drain ones, whatever the level. */
  lemma OpenDrainBit(hw: Hw, p: nat, m: PullMode, level: bv32)
    requires p < 32
    ensures m == PullNone || m == PullUp || m == PullDown ==> !PinOf(Writes(hw, p, SetMode(m, level)), p).od
    ensures m == OdPullNone || m == OdPullUp || m == OdDropDown ==> PinOf(Writes(hw, p, SetMode(m, level)), p).od
    ensures m == OdDropNone ==> Writes(hw, p, SetMode(m, level)) == hw
  {
    if m != OdDropNone {
      var on := OpenDrain(m);
      PullKeepsOd(hw.(od := SetBit(hw.od, Ix(p), on)), p, m, level);
      SetBitAt(hw.od, Ix(p), on, Ix(p));
    }
  }

  lemma PullKeepsOd(hw: Hw, p: nat, m: PullMode, level: bv32)
    requires p < 32
    ensures SetPull(hw, p, m, level).od == hw.od
  {
  }

  /** The pulls: none clears both fields, up and down write their own and keep the other. */
  lemma NoPullFields(hw: Hw, p: nat, level: bv32, m: PullMode)
    requires p < 32 && level < 16 && (m == PullNone || m == OdPullNone)
    ensures PinOf(Writes(hw, p, SetMode(m, level)), p) == PinOf(hw, p).(pu := 0, pd := 0, od := m == OdPullNone)
  {
    SetModeAt(hw, p, m, level, p);
  }

  lemma PullUpFields(hw: Hw, p: nat, level: bv32, m: PullMode)
    requires p < 32 && level < 16 && (m == PullUp || m == OdPullUp)
    ensures PinOf(Writes(hw, p, SetMode(m, level)), p) == PinOf(hw, p).(pu := level, od := m == OdPullUp)
  {
    SetModeAt(hw, p, m, level, p);
  }

  lemma PullDownFields(hw: Hw, p: nat, level: bv32, m: PullMode)
    requires p < 32 && level < 16 && (m == PullDown || m == OdDropDown)
    ensures PinOf(Writes(hw, p, SetMode(m, level)), p) == PinOf(hw, p).(pd := level, od := m == OdDropDown)
  {
    SetModeAt(hw, p, m, level, p);
  }

  /** The mode field: 0 is input, 1 output, 3 analog and 2 the alternate function. */
  lemma ModeFields(hw: Hw, p: nat)
    requires p < 32
    ensures PinOf(Writes(hw, p, Dir(0)), p) == PinOf(hw, p).(mode := 0)
    ensures PinOf(Writes(hw, p, Dir(1)), p) == PinOf(hw, p).(mode := 1)
  {
    ModePin(hw, p, 0, p);
    ModePin(hw, p, 1, p);
  }

  lemma AnalogFields(hw: Hw, p: nat)
    requires p < 32
    ensures PinOf(Writes(hw, p, Analog(true)), p) == PinOf(hw, p).(mode := 3)
    ensures PinOf(Writes(hw, p, Analog(false)), p) == PinOf(hw, p).(mode := 1)
  {
    ModePin(hw, p, 3, p);
    ModePin(hw, p, 1, p);
  }

  lemma AfioFields(hw: Hw, p: nat, sel: bv32)
    requires p < 32 && sel < 16
    ensures PinOf(Writes(hw, p, Afio(sel)), p) == PinOf(hw, p).(mode := 2, afr := sel)
  {
    AfioPin(hw, p, sel, p);
  }

  lemma ValueFields(hw: Hw, p: nat, s: bv32, v: bool)
    requires p < 32 && s < 16
    ensures PinOf(Writes(hw, p, Drive(s)), p) == PinOf(hw, p).(dr := s)
    ensures PinOf(Writes(hw, p, Set(v)), p) == PinOf(hw, p).(data := v)
  {
    DrivePin(hw, p, s, p);
    SetDataAt(hw, p, v, p);
  }

  /** Where the fields lie: pins 0 to 7 in the first bank and so on, pin `j` of a bank at bits 4j to 4j + 3; pins 0 to
      15 in the first mode register, pin `j` of it at bits 2j and 2j + 1. */
  lemma BankLayout(q: Quad, m: Pair)
    ensures Bank(q, 0) == q.r0 && Bank(q, 1) == q.r1 && Bank(q, 2) == q.r2 && Bank(q, 3) == q.r3
    ensures HalfOf(m, 0) == m.r0 && HalfOf(m, 1) == m.r1
  {
  }

  lemma NibLayout(v: bv32, j: bv32)
    requires j < 8 && v < 16
    ensures Nib(v << (4 * j), j) == v && Nib(!(0xF << (4 * j)), j) == 0
  {
  }

  lemma TwoLayout(v: bv32, j: bv32)
    requires j < 16 && v < 4
    ensures Two(v << (2 * j), j) == v && Two(!(3 << (2 * j)), j) == 0
  {
  }

  /** `Ix` is the number itself. */
  lemma IxCounts(j: nat)
    requires j < 31
    ensures Ix(0) == 0 && Ix(j + 1) == Ix(j) + 1
    ensures j < 8 ==> Ix8(j) == Ix(j)
    ensures j < 16 ==> Ix16(j) == Ix(j)
  {
  }

  /** Only the controller's own pins, and no drive beyond the strongest. */
  lemma DriveAnswer(g: Config, hw: Hw, pin: nat, s: bv32)
    requires Configured(g)
    ensures Execute(g, hw, pin, Drive(s)).1 == (if g.first <= pin <= g.last && s <= g.dsMax then RET_OK else -EINVAL)
    ensures !(g.first <= pin <= g.last && s <= g.dsMax) ==> Execute(g, hw, pin, Drive(s)).0 == hw
  {
  }

  datatype Request = Request(pin: nat, cmd: Cmd)

  function Run(g: Config, hw: Hw, rs: seq<Request>): (r: Hw)
    requires Configured(g)
    decreases |rs|
  {
    if rs == [] then hw else Run(g, Execute(g, hw, rs[0].pin, rs[0].cmd).0, rs[1..])
  }

  /** The requests that name pin `i`, applied to its record; everything else is ignored. */
  function PinRun(g: Config, p: Pin, i: nat, rs: seq<Request>): (p': Pin)
    decreases |rs|
  {
    if rs == [] then p
    else
      var r := rs[0];
      PinRun(g, if Mine(g, r.pin) && r.pin - g.first == i && !Refused(r.cmd, g.dsMax) then PinStep(p, r.cmd) else p, i, rs[1..])
  }

  /** Any sequence of requests treats the packed registers as independent pin records: every pin ends up as
      the requests addressed to it alone would leave it. */
  lemma {:induction false} RunRefinesPins(g: Config, hw: Hw, rs: seq<Request>, i: nat)
    requires Configured(g) && i < 32 && forall k :: 0 <= k < |rs| ==> FieldSized(rs[k].cmd)
    ensures PinOf(Run(g, hw, rs), i) == PinRun(g, PinOf(hw, i), i, rs)
    decreases |rs|
  {
    if rs != [] {
      ExecutePin(g, hw, rs[0].pin, rs[0].cmd, i);
      RunRefinesPins(g, Execute(g, hw, rs[0].pin, rs[0].cmd).0, rs[1..], i);
    }
  }

  /** `hggpio_v2_get`; DATA is taken to read back what was last written to it. */
  function GetValue(g: Config, hw: Hw, pin: nat): (r: int)
    requires Configured(g)
  {
    if !Mine(g, pin) then -EINVAL else if Bit(hw.data, Ix(pin - g.first)) then 1 else 0
  }

  /** A value set is the value read back, until that pin is set again, whatever happens to other pins and
      to this pin's other settings. */
  lemma SetThenGet(g: Config, hw: Hw, pin: nat, v: bool, rs: seq<Request>)
    requires Configured(g) && Mine(g, pin)
    requires forall k :: 0 <= k < |rs| ==> FieldSized(rs[k].cmd) && (rs[k].cmd.Set? ==> rs[k].pin != pin)
    ensures GetValue(g, Run(g, Execute(g, hw, pin, Set(v)).0, rs), pin) == if v then 1 else 0
  {
    var i, hw' := pin - g.first, Execute(g, hw, pin, Set(v)).0;
    ExecutePin(g, hw, pin, Set(v), i);
    RunRefinesPins(g, hw', rs, i);
    DataKept(g, PinOf(hw', i), pin, rs);
  }

  lemma {:induction false} DataKept(g: Config, p: Pin, pin: nat, rs: seq<Request>)
    requires Configured(g) && Mine(g, pin)
    requires forall k :: 0 <= k < |rs| ==> rs[k].cmd.Set? ==> rs[k].pin != pin
    ensures PinRun(g, p, pin - g.first, rs).data == p.data
    decreases |rs|
  {
    if rs != [] {
      var r := rs[0];
      assert r.cmd.Set? ==> r.pin != pin;
      var hit := Mine(g, r.pin) && r.pin - g.first == pin - g.first && !Refused(r.cmd, g.dsMax);
      if hit {
        OtherKeepsData(p, r.cmd);
      }
      DataKept(g, if hit then PinStep(p, r.cmd) else p, pin, rs[1..]);
    }
  }

  lemma OtherKeepsData(p: Pin, c: Cmd)
    requires !c.Set?
    ensures PinStep(p, c).data == p.data
  {
    match c
    case Dir(_) =>
    case SetMode(m, level) => PullKeepsData(p, m, level);
    case Drive(_) =>
    case Analog(_) =>
    case Afio(_) =>
  }

  lemma PullKeepsData(p: Pin, m: PullMode, level: bv32)
    ensures PinStep(p, SetMode(m, level)).data == p.data
  {
    if !m.OdDropNone? {
      assert PullStep(p.(od := OpenDrain(m)), m, level).data == p.data;
    }
  }

  // ---- values too large for their field -----------------------------------------------------------

  lemma NonzeroField(x: bv32)
    requires x != 0
    ensures Nib(x, 0) != 0 || Nib(x, 1) != 0 || Nib(x, 2) != 0 || Nib(x, 3) != 0
         || Nib(x, 4) != 0 || Nib(x, 5) != 0 || Nib(x, 6) != 0 || Nib(x, 7) != 0
  {
  }

  /** Bits of `sel` that land in the register but outside field `j`. */
  function Spill(j: bv32, sel: bv32): (x: bv32)
    requires j < 8
  {
    ClearNib(sel << (4 * j), j)
  }

  /** A value that does not spill is as good as its low four bits. */
  lemma NoSpill(reg: bv32, j: bv32, sel: bv32)
    requires j < 8 && Spill(j, sel) == 0
    ensures SetNib(reg, j, sel) == SetNib(reg, j, Low(sel))
  {
    Unspilt(j, sel);
    SameMerge(reg, j, sel << (4 * j), Low(sel) << (4 * j));
  }

  function Low(sel: bv32): (v: bv32)
    ensures v < 16
  {
    sel & 0xF
  }

  lemma Unspilt(j: bv32, sel: bv32)
    requires j < 8 && Spill(j, sel) == 0
    ensures sel << (4 * j) == Low(sel) << (4 * j)
  {
  }

  lemma SameMerge(reg: bv32, j: bv32, w: bv32, x: bv32)
    requires j < 8 && w == x
    ensures Merge(reg, j, w) == Merge(reg, j, x)
  {
  }

  lemma AllClear(j: bv32, sel: bv32, k: bv32)
    requires j < 8 && k < 8
    ensures SetNib(0, j, sel) == sel << (4 * j) && Nib(0, k) == 0
  {
  }

  /** The function number and the pull level are not masked: the other pins of the register are safe, whatever
      they hold, exactly when no bit of the value lands outside the pin's field. */
  lemma OthersSafeIffNoSpill(j: bv32, sel: bv32)
    requires j < 8
    ensures (forall reg: bv32, k: bv32 {:trigger Nib(SetNib(reg, j, sel), k)} ::
               k < 8 && k != j ==> Nib(SetNib(reg, j, sel), k) == Nib(reg, k))
       <==> Spill(j, sel) == 0
  {
    if Spill(j, sel) == 0 {
      forall reg: bv32, k: bv32 | k < 8 && k != j
        ensures Nib(SetNib(reg, j, sel), k) == Nib(reg, k)
      {
        NoSpill(reg, j, sel);
        SetNibAt(reg, j, Low(sel), k);
      }
    } else {
      SpillShows(j, sel);
    }
  }

  lemma SpillShows(j: bv32, sel: bv32)
    requires j < 8 && Spill(j, sel) != 0
    ensures exists k: bv32 {:trigger Nib(SetNib(0, j, sel), k)} :: k < 8 && k != j && Nib(SetNib(0, j, sel), k) != Nib(0, k)
  {
    var x := Spill(j, sel);
    NonzeroField(x);
    var k: bv32 := if Nib(x, 0) != 0 then 0 else if Nib(x, 1) != 0 then 1 else if Nib(x, 2) != 0 then 2
                   else if Nib(x, 3) != 0 then 3 else if Nib(x, 4) != 0 then 4 else if Nib(x, 5) != 0 then 5
                   else if Nib(x, 6) != 0 then 6 else 7;
    ClearNibAt(sel << (4 * j), j, k);
    AllClear(j, sel, k);
    assert Nib(SetNib(0, j, sel), k) != Nib(0, k);
  }

  // ---- requests whose value may be too large ------------------------------------------------------

  /** Nothing the request writes lands outside the field of pin `p`. */
  predicate StaysInField(p: nat, c: Cmd)
    requires p < 32
  {
    match c
    case SetMode(m, level) => m.PullNone? || m.OdPullNone? || m.OdDropNone? || Spill(Ix8(p % 8), level) == 0
    case Afio(sel) => Spill(Ix8(p % 8), sel) == 0
    case _ => true
  }

  /** The request with its value cut to four bits. */
  function Cut(c: Cmd): (c': Cmd)
    ensures FieldSized(c')
  {
    match c
    case SetMode(m, level) => SetMode(m, Low(level))
    case Afio(sel) => Afio(Low(sel))
    case _ => c
  }

  lemma SetFieldCut(q: Quad, p: nat, v: bv32)
    requires p < 32 && Spill(Ix8(p % 8), v) == 0
    ensures SetField(q, p, v) == SetField(q, p, Low(v))
  {
    NoSpill(Bank(q, p / 8), Ix8(p % 8), v);
  }

  lemma AfioCut(hw: Hw, p: nat, sel: bv32)
    requires p < 32 && Spill(Ix8(p % 8), sel) == 0
    ensures AfioWrites(hw, p, sel) == AfioWrites(hw, p, Low(sel))
  {
    AfioField(hw, p, sel);
    AfioField(hw, p, Low(sel));
    SetFieldCut(hw.afr, p, sel);
    AfioKeepsRest(hw, p, sel, Low(sel));
  }

  lemma AfioKeepsRest(hw: Hw, p: nat, a: bv32, b: bv32)
    requires p < 32
    ensures AfioWrites(hw, p, a) == AfioWrites(hw, p, b).(afr := AfioWrites(hw, p, a).afr)
  {
  }

  lemma PullCut(hw: Hw, p: nat, m: PullMode, level: bv32)
    requires p < 32 && StaysInField(p, SetMode(m, level))
    ensures SetPull(hw, p, m, level) == SetPull(hw, p, m, Low(level))
  {
    if Spill(Ix8(p % 8), level) == 0 {
      SetFieldCut(hw.pu, p, level);
      SetFieldCut(hw.pd, p, level);
    }
  }

  /** A request that stays in its field is the request with its value cut. */
  lemma WritesCut(hw: Hw, p: nat, c: Cmd)
    requires p < 32 && StaysInField(p, c)
    ensures Writes(hw, p, c) == Writes(hw, p, Cut(c))
  {
    match c
    case SetMode(m, level) => PullCut(hw.(od := SetBit(hw.od, Ix(p), OpenDrain(m))), p, m, level);
    case Afio(sel) => AfioCut(hw, p, sel);
    case Dir(_) =>
    case Drive(_) =>
    case Set(_) =>
    case Analog(_) =>
  }

  lemma CutNotRefused(c: Cmd, dsMax: bv32)
    ensures Refused(Cut(c), dsMax) == Refused(c, dsMax)
  {
  }

  lemma StayingPin(hw: Hw, p: nat, c: Cmd, dsMax: bv32, i: nat)
    requires p < 32 && i < 32 && dsMax < 16 && !Refused(c, dsMax) && StaysInField(p, c)
    ensures PinOf(Writes(hw, p, c), i) == if i == p then PinStep(PinOf(hw, i), Cut(c)) else PinOf(hw, i)
  {
    CutNotRefused(c, dsMax);
    WritesCut(hw, p, c);
    WritesPin(hw, p, Cut(c), dsMax, i);
  }

  const Zeroes := Quad(0, 0, 0, 0)

  /** The place that `k` is the number of. */
  function Place(k: bv32): (n: nat)
    requires k < 8
    ensures n < 8 && Ix8(n) == k
  {
    if k == 0 then 0 else if k == 1 then 1 else if k == 2 then 2 else if k == 3 then 3
    else if k == 4 then 4 else if k == 5 then 5 else if k == 6 then 6 else 7
  }

  lemma SpillHitsField(p: nat, v: bv32) returns (i: nat)
    requires p < 32 && Spill(Ix8(p % 8), v) != 0
    ensures i < 32 && i != p && Field(SetField(Zeroes, p, v), i) != Field(Zeroes, i)
  {
    var j := Ix8(p % 8);
    SpillShows(j, v);
    var k: bv32 :| k < 8 && k != j && Nib(SetNib(0, j, v), k) != Nib(0, k);
    i := p / 8 * 8 + Place(k);
    assert i / 8 == p / 8 && i % 8 == Place(k);
    WithBankAt(Zeroes, p / 8, SetNib(Bank(Zeroes, p / 8), j, v), i / 8);
    assert Bank(Zeroes, p / 8) == 0;
  }

  /** All registers zero. */
  const Blank := Hw(Pair(0, 0), Zeroes, Zeroes, Zeroes, Zeroes, 0, 0)

  lemma SpillHitsPin(p: nat, c: Cmd) returns (i: nat)
    requires p < 32 && !StaysInField(p, c)
    ensures i < 32 && i != p && PinOf(Writes(Blank, p, c), i) != PinOf(Blank, i)
  {
    match c
    case Afio(sel) =>
      i := SpillHitsField(p, sel);
      AfioField(Blank, p, sel);
      assert PinOf(Writes(Blank, p, c), i).afr != PinOf(Blank, i).afr;
    case SetMode(m, level) =>
      i := SpillHitsField(p, level);
      PullRegisters(Blank.(od := SetBit(0, Ix(p), OpenDrain(m))), p, m, level);
      if m.PullUp? || m.OdPullUp? {
        assert PinOf(Writes(Blank, p, c), i).pu != PinOf(Blank, i).pu;
      } else {
        assert PinOf(Writes(Blank, p, c), i).pd != PinOf(Blank, i).pd;
      }
  }

  lemma PullRegisters(hw: Hw, p: nat, m: PullMode, level: bv32)
    requires p < 32
    ensures m.PullUp? || m.OdPullUp? ==> SetPull(hw, p, m, level).pu == SetField(hw.pu, p, level)
    ensures m.PullDown? || m.OdDropDown? ==> SetPull(hw, p, m, level).pd == SetField(hw.pd, p, level)
  {
  }

  /** An accepted request leaves every other pin alone, whatever the registers hold, exactly when it stays in its
      pin's field. */
  lemma OtherPinsSafeIff(p: nat, c: Cmd, dsMax: bv32)
    requires p < 32 && dsMax < 16 && !Refused(c, dsMax)
    ensures (forall hw: Hw, i: nat {:trigger PinOf(Writes(hw, p, c), i)} ::
               i < 32 && i != p ==> PinOf(Writes(hw, p, c), i) == PinOf(hw, i))
       <==> StaysInField(p, c)
  {
    if StaysInField(p, c) {
      forall hw: Hw, i: nat | i < 32 && i != p
        ensures PinOf(Writes(hw, p, c), i) == PinOf(hw, i)
      {
        StayingPin(hw, p, c, dsMax, i);
      }
    } else {
      var i := SpillHitsPin(p, c);
      assert PinOf(Writes(Blank, p, c), i) != PinOf(Blank, i);
    }
  }

  function CutAll(rs: seq<Request>): (r: seq<Request>)
    ensures |r| == |rs|
  {
    seq(|rs|, k requires 0 <= k < |rs| => Request(rs[k].pin, Cut(rs[k].cmd)))
  }

  lemma ExecuteCut(g: Config, hw: Hw, pin: nat, c: Cmd)
    requires Configured(g) && (Mine(g, pin) ==> StaysInField(pin - g.first, c))
    ensures Execute(g, hw, pin, c) == Execute(g, hw, pin, Cut(c))
  {
    CutNotRefused(c, g.dsMax);
    if Mine(g, pin) {
      WritesCut(hw, pin - g.first, c);
    }
  }

  /** Any sequence of requests that stay in their fields, whatever else their values hold, treats the packed
      registers as independent pin records; what reaches a record is the low four bits. */
  lemma {:induction false} RunRefinesPinsWithinFields(g: Config, hw: Hw, rs: seq<Request>, i: nat)
    requires Configured(g) && i < 32
    requires forall k :: 0 <= k < |rs| ==> Mine(g, rs[k].pin) ==> StaysInField(rs[k].pin - g.first, rs[k].cmd)
    ensures PinOf(Run(g, hw, rs), i) == PinRun(g, PinOf(hw, i), i, CutAll(rs))
    decreases |rs|
  {
    RunCut(g, hw, rs);
    RunRefinesPins(g, hw, CutAll(rs), i);
  }

  lemma {:induction false} RunCut(g: Config, hw: Hw, rs: seq<Request>)
    requires Configured(g)
    requires forall k :: 0 <= k < |rs| ==> Mine(g, rs[k].pin) ==> StaysInField(rs[k].pin - g.first, rs[k].cmd)
    ensures Run(g, hw, rs) == Run(g, hw, CutAll(rs))
    decreases |rs|
  {
    if rs != [] {
      ExecuteCut(g, hw, rs[0].pin, rs[0].cmd);
      RunCut(g, Execute(g, hw, rs[0].pin, rs[0].cmd).0, rs[1..]);
      assert CutAll(rs)[1..] == CutAll(rs[1..]);
    }
  }

  // ---- the entry points, write by write -----------------------------------------------------------

  class Controller {
    const g: Config
    var regs: Hw

    constructor (g: Config, regs: Hw)
      ensures this.g == g && this.regs == regs
    {
      this.g := g;
      this.regs := regs;
    }

    /** `hggpio_v2_dir`. */
    method Direction(pin: nat, direction: nat) returns (ret: int)
      requires Configured(g)
      modifies this
      ensures (regs, ret) == Execute(g, old(regs), pin, Dir(direction))
      ensures ret == RET_OK <==> g.first <= pin <= g.last && direction <= 1
      ensures ret != RET_OK ==> ret == -EINVAL && regs == old(regs)
    {
      if pin < g.first || pin > g.last {
        return -EINVAL;
      }
      var p := pin - g.first;
      if direction > 1 {
        return -EINVAL;
      }
      regs := regs.(mode := SetModeField(regs.mode, p, if direction == 0 then 0 else 1));
      ret := RET_OK;
    }

    /** `hggpio_v2_analog`. */
    method AnalogSelect(pin: nat, value: bool) returns (ret: int)
      requires Configured(g)
      modifies this
      ensures (regs, ret) == Execute(g, old(regs), pin, Analog(value))
      ensures ret == RET_OK <==> g.first <= pin <= g.last
      ensures ret != RET_OK ==> ret == -EINVAL && regs == old(regs)
    {
      if pin < g.first || pin > g.last {
        return -EINVAL;
      }
      var p := pin - g.first;
      regs := regs.(mode := SetModeField(regs.mode, p, if value then 3 else 1));
      ret := RET_OK;
    }

    /** `hggpio_v2_afio`: spread the pin bit, spread it again, and update three registers. */
    method AlternateFunction(pin: nat, sel: bv32) returns (ret: int)
      requires Configured(g)
      modifies this
      ensures (regs, ret) == Execute(g, old(regs), pin, Afio(sel))
      ensures ret == RET_OK <==> g.first <= pin <= g.last
      ensures ret != RET_OK ==> ret == -EINVAL && regs == old(regs)
    {
      if pin < g.first || pin > g.last {
        return -EINVAL;
      }
      var p := pin - g.first;
      var pinMode := PinMode(p);
      regs := regs.(afr := AfioBanks(regs.afr, p / 16, AfrLow(pinMode), AfrHigh(pinMode), sel));
      regs := regs.(mode := WithHalf(regs.mode, p / 16, AfioMode(HalfOf(regs.mode, p / 16), pinMode)));
      ret := RET_OK;
    }

    /** `hggpio_v2_driver_strength`. */
    method DriverStrength(pin: nat, strength: bv32) returns (ret: int)
      requires Configured(g)
      modifies this
      ensures (regs, ret) == Execute(g, old(regs), pin, Drive(strength))
    {
      if pin < g.first || pin > g.last {
        return -EINVAL;
      }
      var p := pin - g.first;
      if strength > g.dsMax {
        return -EINVAL;
      }
      regs := regs.(dr := SetField(regs.dr, p, strength));
      ret := RET_OK;
    }

    /** `hggpio_v2_mode`: the open-drain bit, then the pull registers. */
    method Mode(pin: nat, mode: PullMode, level: bv32) returns (ret: int)
      requires Configured(g)
      modifies this
      ensures (regs, ret) == Execute(g, old(regs), pin, SetMode(mode, level))
      ensures ret == RET_OK <==> g.first <= pin <= g.last && mode != OdDropNone
      ensures ret == RET_OK && (mode == PullNone || mode == PullUp || mode == PullDown) ==> !PinOf(regs, pin - g.first).od
      ensures ret == RET_OK && (mode == OdPullNone || mode == OdPullUp || mode == OdDropDown) ==> PinOf(regs, pin - g.first).od
    {
      if pin < g.first || pin > g.last {
        return -EINVAL;
      }
      var p := pin - g.first;
      OpenDrainBit(regs, p, mode, level);
      if mode.OdDropNone? {
        return -EINVAL;
      }
      regs := regs.(od := SetBit(regs.od, Ix(p), OpenDrain(mode)));
      Pull(p, mode, level);
      ret := RET_OK;
    }

    /** `hggpio_v2_set_pull`. */
    method Pull(p: nat, mode: PullMode, level: bv32)
      requires p < 32
      modifies this
      ensures regs == SetPull(old(regs), p, mode, level)
    {
      if mode.PullNone? || mode.OdPullNone? {
        regs := regs.(pd := ClearField(regs.pd, p));
        regs := regs.(pu := ClearField(regs.pu, p));
      } else if mode.PullUp? || mode.OdPullUp? {
        regs := regs.(pu := SetField(regs.pu, p, level));
      } else if mode.PullDown? || mode.OdDropDown? {
        regs := regs.(pd := SetField(regs.pd, p, level));
      }
    }

    /** `hggpio_v2_set`. */
    method SetValue(pin: nat, value: bool) returns (ret: int)
      requires Configured(g)
      modifies this
      ensures (regs, ret) == Execute(g, old(regs), pin, Set(value))
      ensures ret == RET_OK <==> g.first <= pin <= g.last
      ensures ret != RET_OK ==> ret == -EINVAL && regs == old(regs)
    {
      if pin < g.first || pin > g.last {
        return -EINVAL;
      }
      var p := pin - g.first;
      if value {
        regs := regs.(data := SetBit(regs.data, Ix(p), true));
      } else {
        regs := regs.(data := SetBit(regs.data, Ix(p), false));
      }
      ret := RET_OK;
    }
  }
}
