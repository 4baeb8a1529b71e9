/** The cache maintenance by address range of csky/csi_core/include/core_803.h, on a write-back cache with
    lines of sixteen bytes. */
module CacheRange {

  const W32 := 0x1_0000_0000
  const W31 := 0x8000_0000

  type Word = x: int | 0 <= x < 0x1_0000_0000 witness 0

  /** `CACHE_CIR_INV_ONE`, `CACHE_CIR_CLR_ONE`. */
  const INV := 2
  const CLR := 8

  predicate Operation(op: int) {
    op == INV || op == CLR || op == CLR + INV
  }

  /** `(int32_t)addr % 16`: the remainder takes the sign of the address read as a signed number. */
  function SignedRem(addr: Word): (r: int) {
    if addr < W31 || addr % 16 == 0 then addr % 16 else addr % 16 - 16
  }

  /** `op_size`; the sum must fit a signed word, or the program has no meaning. */
  function OpSize(addr: Word, dsize: int): (n: int) {
    dsize + SignedRem(addr)
  }

  /** The range ends within the address space and `op_size` does not overflow. */
  predicate InSpace(addr: Word, dsize: int) {
    -W31 <= dsize && OpSize(addr, dsize) < W31 && -W31 <= OpSize(addr, dsize) && addr + dsize <= W32
  }

  /** How many lines the loops write. */
  function Rounds(n: int): (k: nat)
    ensures n <= 0 ==> k == 0
    ensures n > 0 ==> 16 * k < n + 16 <= 16 * k + 16
  {
    if n <= 0 then 0 else (n + 15) / 16
  }

  /** `n` register values, sixteen apart. */
  function Values(start: Word, n: nat): (ws: seq<Word>)
    ensures |ws| == n
  {
    seq(n, k requires 0 <= k < n => (start + 16 * k) % W32)
  }

  /** What the range functions write to CIR: the line address with the operation in its low bits. */
  function CirWrites(addr: Word, dsize: int, op: int): (ws: seq<Word>)
    requires Operation(op)
  {
    Values(addr / 16 * 16 + op, Rounds(OpSize(addr, dsize)))
  }

  // ---- which lines --------------------------------------------------------------------------------

  /** Line `l` holds a byte of the range. */
  predicate Overlaps(addr: Word, dsize: int, l: int) {
    16 * l < addr + dsize && addr < 16 * l + 16 && dsize > 0
  }

  /** Each value names the next line, and carries the operation unchanged. */
  lemma WritesInOrder(addr: Word, dsize: int, op: int, k: nat)
    requires Operation(op) && InSpace(addr, dsize) && k < |CirWrites(addr, dsize, op)|
    ensures CirWrites(addr, dsize, op)[k] / 16 == addr / 16 + k
    ensures CirWrites(addr, dsize, op)[k] % 16 == op
  {
    assert 16 * k < OpSize(addr, dsize);
    assert 16 * (addr / 16 + k) + 16 <= W32;
  }

  predicate Touched(addr: Word, dsize: int, op: int, l: int)
    requires Operation(op)
  {
    exists k :: 0 <= k < |CirWrites(addr, dsize, op)| && CirWrites(addr, dsize, op)[k] / 16 == l
  }

  lemma TouchedAre(addr: Word, dsize: int, op: int, l: int)
    requires Operation(op) && InSpace(addr, dsize)
    ensures Touched(addr, dsize, op, l) <==> 0 <= l - addr / 16 < Rounds(OpSize(addr, dsize))
  {
    var ws := CirWrites(addr, dsize, op);
    forall k | 0 <= k < |ws|
      ensures ws[k] / 16 == addr / 16 + k
    {
      WritesInOrder(addr, dsize, op, k);
    }
    if 0 <= l - addr / 16 < |ws| {
      assert ws[l - addr / 16] / 16 == l;
    }
  }

  /** The last line of a non-empty range. */
  function LastLine(addr: Word, dsize: int): (l: int) {
    (addr + dsize - 1) / 16
  }

  /** A non-empty range from an address in the lower half, or from an aligned one, touches exactly the lines
      it overlaps; otherwise it touches all of them but the last. */
  lemma TouchesOverlapping(addr: Word, dsize: int, op: int, l: int)
    requires Operation(op) && InSpace(addr, dsize) && dsize > 0
    ensures Touched(addr, dsize, op, l)
       <==> Overlaps(addr, dsize, l) && (addr < W31 || addr % 16 == 0 || l != LastLine(addr, dsize))
  {
    TouchedAre(addr, dsize, op, l);
  }

  /** For every size: the lines touched are exactly the lines overlapped just when a non-empty range starts in
      the lower half of the address space or on a line, and an empty one gives no positive `op_size`. */
  lemma ExactLinesIff(addr: Word, dsize: int, op: int)
    requires Operation(op) && InSpace(addr, dsize)
    ensures (forall l: int :: Touched(addr, dsize, op, l) <==> Overlaps(addr, dsize, l))
       <==> if dsize > 0 then addr < W31 || addr % 16 == 0 else dsize + addr % 16 <= 0 || addr >= W31
  {
    if dsize > 0 {
      forall l: int
        ensures Touched(addr, dsize, op, l)
           <==> Overlaps(addr, dsize, l) && (addr < W31 || addr % 16 == 0 || l != LastLine(addr, dsize))
      {
        TouchesOverlapping(addr, dsize, op, l);
      }
      assert Overlaps(addr, dsize, LastLine(addr, dsize));
    } else {
      forall l: int
        ensures Touched(addr, dsize, op, l) <==> 0 <= l - addr / 16 < Rounds(OpSize(addr, dsize))
      {
        TouchedAre(addr, dsize, op, l);
      }
      assert Touched(addr, dsize, op, addr / 16) <==> OpSize(addr, dsize) > 0;
    }
  }

  // ---- the cache ----------------------------------------------------------------------------------

  /** The contents of one line. */
  type Block = seq<int>

  datatype Entry = Entry(data: Block, dirty: bool)

  /** Lines held by the cache, and main memory by line. */
  datatype System = System(cache: map<int, Entry>, memory: map<int, Block>)

  /** What the processor reads from line `l`. */
  function View(s: System, l: int): (b: Block) {
    if l in s.cache then s.cache[l].data else Stored(s, l)
  }

  function Stored(s: System, l: int): (b: Block) {
    if l in s.memory then s.memory[l] else []
  }

  /** No device has written behind a line that is not dirty. */
  predicate Coherent(s: System) {
    forall l :: l in s.cache && !s.cache[l].dirty ==> s.cache[l].data == Stored(s, l)
  }

  /** Write a dirty line back. */
  function Cleaned(s: System, l: int): (s': System) {
    if l in s.cache && s.cache[l].dirty
    then System(s.cache[l := s.cache[l].(dirty := false)], s.memory[l := s.cache[l].data])
    else s
  }

  /** One write to CIR: clean the line if asked to, then drop it if asked to. */
  function Maintain(s: System, w: Word): (s': System) {
    var s1 := if w / 8 % 2 == 1 then Cleaned(s, w / 16) else s;
    if w / 2 % 2 == 1 then s1.(cache := s1.cache - {w / 16}) else s1
  }

  function MaintainAll(s: System, ws: seq<Word>): (s': System)
    decreases |ws|
  {
    if ws == [] then s else MaintainAll(Maintain(s, ws[0]), ws[1..])
  }

  /** A line in the cache, a line in memory: all that maintenance looks at or changes. */
  datatype Line = Line(cached: bool, entry: Entry, stored: Block)

  function LineOf(s: System, l: int): (r: Line) {
    Line(l in s.cache, if l in s.cache then s.cache[l] else Entry([], false), Stored(s, l))
  }

  function LineCleaned(r: Line): (r': Line) {
    if r.cached && r.entry.dirty then Line(true, Entry(r.entry.data, false), r.entry.data) else r
  }

  function LineStep(r: Line, op: int): (r': Line) {
    var r1 := if op >= CLR then LineCleaned(r) else r;
    if op % 8 == INV then Line(false, Entry([], false), r1.stored) else r1
  }

  lemma OperationBits(w: Word, op: int)
    requires Operation(op) && w % 16 == op
    ensures (w / 8 % 2 == 1 <==> op >= CLR) && (w / 2 % 2 == 1 <==> op % 8 == INV)
  {
    var q := w / 16;
    var clean := if op >= CLR then 1 else 0;
    var drop := if op % 8 == INV then 1 else 0;
    Quotient(w, 8, 2 * q + clean, 2 * drop);
    Quotient(w / 8, 2, q, clean);
    Quotient(w, 2, 8 * q + 4 * clean + drop, 0);
    Quotient(w / 2, 2, 4 * q + 2 * clean, drop);
  }

  lemma Quotient(x: int, d: int, q: int, r: int)
    requires (d == 2 || d == 8) && x == d * q + r && 0 <= r < d
    ensures x / d == q && x % d == r
  {
    if d == 2 {
      assert x == 2 * q + r;
    } else {
      assert x == 8 * q + r;
    }
  }

  lemma CleanedLine(s: System, c: int, l: int)
    ensures LineOf(Cleaned(s, c), l) == if c == l then LineCleaned(LineOf(s, l)) else LineOf(s, l)
  {
  }

  lemma DroppedLine(s: System, c: int, l: int)
    ensures LineOf(s.(cache := s.cache - {c}), l)
         == if c == l then Line(false, Entry([], false), LineOf(s, l).stored) else LineOf(s, l)
  {
  }

  lemma MaintainLine(s: System, w: Word, op: int, l: int)
    requires Operation(op) && w % 16 == op
    ensures LineOf(Maintain(s, w), l) == if w / 16 == l then LineStep(LineOf(s, l), op) else LineOf(s, l)
  {
    OperationBits(w, op);
    CleanedLine(s, w / 16, l);
    DroppedLine(if op >= CLR then Cleaned(s, w / 16) else s, w / 16, l);
  }

  /** A line named by one of the values gets the operation, once or several times alike; others nothing. */
  lemma {:induction false} MaintainAllLine(s: System, ws: seq<Word>, op: int, l: int)
    requires Operation(op) && forall k :: 0 <= k < |ws| ==> ws[k] % 16 == op
    ensures LineOf(MaintainAll(s, ws), l)
         == if exists k :: 0 <= k < |ws| && ws[k] / 16 == l then LineStep(LineOf(s, l), op) else LineOf(s, l)
    decreases |ws|
  {
    if ws != [] {
      var s1 := Maintain(s, ws[0]);
      MaintainLine(s, ws[0], op, l);
      MaintainAllLine(s1, ws[1..], op, l);
      assert LineStep(LineStep(LineOf(s, l), op), op) == LineStep(LineOf(s, l), op);
      if ws[0] / 16 != l {
        assert forall k :: 0 <= k < |ws[1..]| ==> ws[1..][k] == ws[k + 1];
        assert (exists k :: 0 <= k < |ws| && ws[k] / 16 == l) ==> exists k :: 0 <= k < |ws[1..]| && ws[1..][k] / 16 == l;
      }
    }
  }

  /** What a whole range operation does to every line of the system. */
  lemma RangeLine(s: System, addr: Word, dsize: int, op: int, l: int)
    requires Operation(op) && InSpace(addr, dsize) && dsize > 0
    ensures LineOf(MaintainAll(s, CirWrites(addr, dsize, op)), l)
         == if Overlaps(addr, dsize, l) && (addr < W31 || addr % 16 == 0 || l != LastLine(addr, dsize))
            then LineStep(LineOf(s, l), op) else LineOf(s, l)
  {
    var ws := CirWrites(addr, dsize, op);
    forall k | 0 <= k < |ws|
      ensures ws[k] % 16 == op
    {
      WritesInOrder(addr, dsize, op, k);
    }
    MaintainAllLine(s, ws, op, l);
    TouchesOverlapping(addr, dsize, op, l);
    assert Touched(addr, dsize, op, l) <==> exists k :: 0 <= k < |ws| && ws[k] / 16 == l;
  }

  /** Cleaning a range changes nothing the processor reads, anywhere. */
  lemma CleanKeepsView(s: System, addr: Word, dsize: int, l: int)
    requires InSpace(addr, dsize) && dsize > 0
    ensures View(MaintainAll(s, CirWrites(addr, dsize, CLR)), l) == View(s, l)
  {
    RangeLine(s, addr, dsize, CLR, l);
    ViewOfLine(s, l);
    ViewOfLine(MaintainAll(s, CirWrites(addr, dsize, CLR)), l);
  }

  lemma ViewOfLine(s: System, l: int)
    ensures View(s, l) == if LineOf(s, l).cached then LineOf(s, l).entry.data else LineOf(s, l).stored
  {
  }

  /** Memory holds what the processor reads on the whole range. */
  ghost predicate Agrees(s: System, addr: Word, dsize: int) {
    forall l: int {:trigger View(s, l)} :: Overlaps(addr, dsize, l) ==> Stored(s, l) == View(s, l)
  }

  /** After cleaning a range of a coherent system, memory agrees with the processor on it exactly when the
      range started in the lower half or on a line, or its last line needed no cleaning. */
  lemma CleanMakesMemoryAgreeIff(s: System, addr: Word, dsize: int)
    requires InSpace(addr, dsize) && dsize > 0 && Coherent(s)
    ensures Agrees(MaintainAll(s, CirWrites(addr, dsize, CLR)), addr, dsize)
       <==> addr < W31 || addr % 16 == 0 || Stored(s, LastLine(addr, dsize)) == View(s, LastLine(addr, dsize))
  {
    var s' := MaintainAll(s, CirWrites(addr, dsize, CLR));
    forall l: int | Overlaps(addr, dsize, l)
      ensures (Stored(s', l) == View(s', l))
         <==> addr < W31 || addr % 16 == 0 || l != LastLine(addr, dsize) || Stored(s, l) == View(s, l)
    {
      RangeLine(s, addr, dsize, CLR, l);
      CleanLine(s, s', l);
    }
    assert Overlaps(addr, dsize, LastLine(addr, dsize));
  }

  lemma CleanLine(s: System, s': System, l: int)
    requires Coherent(s)
    ensures LineOf(s', l) == LineStep(LineOf(s, l), CLR) ==> Stored(s', l) == View(s', l)
    ensures LineOf(s', l) == LineOf(s, l) ==> Stored(s', l) == Stored(s, l) && View(s', l) == View(s, l)
  {
    ViewOfLine(s, l);
    ViewOfLine(s', l);
    assert Stored(s', l) == LineOf(s', l).stored && Stored(s, l) == LineOf(s, l).stored;
  }

  /** After invalidating a range, in the lower half or from a line on, the processor reads memory there,
      whatever a device has written; lines outside keep what they held. */
  lemma InvalidateShowsMemory(s: System, addr: Word, dsize: int, op: int, l: int)
    requires InSpace(addr, dsize) && dsize > 0 && (op == INV || op == CLR + INV)
    requires addr < W31 || addr % 16 == 0
    ensures var s' := MaintainAll(s, CirWrites(addr, dsize, op));
            if Overlaps(addr, dsize, l) then
              && l !in s'.cache && View(s', l) == Stored(s', l)
              && Stored(s', l) == (if op == INV || l !in s.cache || !s.cache[l].dirty then Stored(s, l) else s.cache[l].data)
            else View(s', l) == View(s, l) && Stored(s', l) == Stored(s, l)
  {
    var s' := MaintainAll(s, CirWrites(addr, dsize, op));
    RangeLine(s, addr, dsize, op, l);
    ViewOfLine(s, l);
    ViewOfLine(s', l);
    assert Stored(s', l) == LineOf(s', l).stored && Stored(s, l) == LineOf(s, l).stored;
    assert LineOf(s', l).cached <==> l in s'.cache;
  }

  lemma InvalidateMakesAgree(s: System, addr: Word, dsize: int, op: int)
    requires InSpace(addr, dsize) && dsize > 0 && (op == INV || op == CLR + INV)
    requires addr < W31 || addr % 16 == 0
    ensures Agrees(MaintainAll(s, CirWrites(addr, dsize, op)), addr, dsize)
  {
    var s' := MaintainAll(s, CirWrites(addr, dsize, op));
    forall l: int | Overlaps(addr, dsize, l)
      ensures Stored(s', l) == View(s', l)
    {
      InvalidateShowsMemory(s, addr, dsize, op, l);
    }
  }

  // ---- the loops ----------------------------------------------------------------------------------

  lemma OneMoreValue(start: Word, n: nat)
    ensures Values(start, n + 1) == Values(start, n) + [(start + 16 * n) % W32]
  {
  }

  lemma {:induction false} MaintainOneMore(s: System, ws: seq<Word>, w: Word)
    ensures MaintainAll(s, ws + [w]) == Maintain(MaintainAll(s, ws), w)
    decreases |ws|
  {
    if ws == [] {
      assert ws + [w] == [w] && [w][1..] == [];
    } else {
      assert (ws + [w])[1..] == ws[1..] + [w];
      MaintainOneMore(Maintain(s, ws[0]), ws[1..], w);
    }
  }

  lemma WalkOn(s: System, start: Word, n: nat)
    ensures MaintainAll(s, Values(start, n + 1)) == Maintain(MaintainAll(s, Values(start, n)), (start + 16 * n) % W32)
    ensures ((start + 16 * n) % W32 + 16) % W32 == (start + 16 * (n + 1)) % W32
  {
    OneMoreValue(start, n);
    MaintainOneMore(s, Values(start, n), (start + 16 * n) % W32);
    WrappedSum(start + 16 * n, 16);
  }

  lemma WrappedSum(a: int, b: int)
    ensures (a % W32 + b) % W32 == (a + b) % W32
  {
    assert a % W32 == a - a / W32 * W32;
  }

  /** The cache behind its register: the system it serves, and the values written to CIR in the current call. */
  class Cache {
    var system: System
    ghost var before: System
    ghost var start: Word
    ghost var rounds: nat

    constructor (system: System)
      ensures this.system == system
    {
      this.system := system;
      before, start, rounds := system, 0, 0;
    }

    /** `rounds` lines have been written since the call began, and `opAddr` is the next value. */
    ghost predicate At(opAddr: Word)
      reads this
    {
      system == MaintainAll(before, Values(start, rounds)) && opAddr == (start + 16 * rounds) % W32
    }

    /** `CACHE->CIR = op_addr; op_addr += linesize;` */
    method Next(opAddr: Word) returns (next: Word)
      requires At(opAddr)
      modifies this
      ensures At(next) && before == old(before) && start == old(start) && rounds == old(rounds) + 1
    {
      WalkOn(before, start, rounds);
      system := Maintain(system, opAddr);
      rounds := rounds + 1;
      next := (opAddr + 16) % W32;
    }

    /** The first loop's body: eight lines. */
    method Eight(opAddr: Word) returns (next: Word)
      requires At(opAddr)
      modifies this
      ensures At(next) && before == old(before) && start == old(start) && rounds == old(rounds) + 8
    {
      next := Next(opAddr);
      next := Next(next);
      next := Next(next);
      next := Next(next);
      next := Next(next);
      next := Next(next);
      next := Next(next);
      next := Next(next);
    }

    /** The common shape of `csi_dcache_invalid_range`, `csi_dcache_clean_range` and
        `csi_dcache_clean_invalid_range`; `op` is what each ors into the line address. */
    method Walk(addr: Word, dsize: int, op: int)
      requires Operation(op) && InSpace(addr, dsize)
      modifies this
      ensures system == MaintainAll(old(system), CirWrites(addr, dsize, op))
    {
      var opSize := OpSize(addr, dsize);
      var opAddr: Word := addr / 16 * 16 + op;
      before, start, rounds := system, opAddr, 0;
      assert Values(start, 0) == [];
      while opSize >= 128
        invariant At(opAddr) && before == old(system) && start == addr / 16 * 16 + op
        invariant opSize == OpSize(addr, dsize) - 16 * rounds && (opSize >= 0 || rounds == 0)
        decreases opSize
      {
        opAddr := Eight(opAddr);
        opSize := opSize - 128;
      }
      while opSize > 0
        invariant At(opAddr) && before == old(system) && start == addr / 16 * 16 + op
        invariant opSize == OpSize(addr, dsize) - 16 * rounds && (opSize > -16 || rounds == 0)
        decreases opSize
      {
        opAddr := Next(opAddr);
        opSize := opSize - 16;
      }
      assert rounds == Rounds(OpSize(addr, dsize));
    }

    method InvalidRange(addr: Word, dsize: int)
      requires InSpace(addr, dsize)
      modifies this
      ensures system == MaintainAll(old(system), CirWrites(addr, dsize, INV))
      ensures dsize > 0 && (addr < W31 || addr % 16 == 0) ==> Agrees(system, addr, dsize)
    {
      ghost var was := system;
      Walk(addr, dsize, INV);
      if dsize > 0 && (addr < W31 || addr % 16 == 0) {
        InvalidateMakesAgree(was, addr, dsize, INV);
      }
    }

    /** ... and with the guard met memory agrees with the processor on the range. */
    method CleanRange(addr: Word, dsize: int)
      requires InSpace(addr, dsize)
      modifies this
      ensures system == MaintainAll(old(system), CirWrites(addr, dsize, CLR))
      ensures dsize > 0 && Coherent(old(system)) && (addr < W31 || addr % 16 == 0) ==> Agrees(system, addr, dsize)
    {
      ghost var was := system;
      Walk(addr, dsize, CLR);
      if dsize > 0 && Coherent(was) {
        CleanMakesMemoryAgreeIff(was, addr, dsize);
      }
    }

    method CleanInvalidRange(addr: Word, dsize: int)
      requires InSpace(addr, dsize)
      modifies this
      ensures system == MaintainAll(old(system), CirWrites(addr, dsize, CLR + INV))
      ensures dsize > 0 && (addr < W31 || addr % 16 == 0) ==> Agrees(system, addr, dsize)
    {
      ghost var was := system;
      Walk(addr, dsize, CLR + INV);
      if dsize > 0 && (addr < W31 || addr % 16 == 0) {
        InvalidateMakesAgree(was, addr, dsize, CLR + INV);
      }
    }
  }
}
