/** The memory-to-memory DMA driver (sdk/driver/dma/hg_m2m_dma.c) over a flat byte memory. */
module M2mDma {
  import opened Bits

  type Memory = seq<Byte>

  const WORD := 0x1_0000_0000
  const RET_OK := 0
  const EBUSY := 16
  const HG_M2M_DMA_NUM := 2
  const ELEMENT_SIZE: seq<nat> := [1, 2, 4, 8]

  datatype Mode = Increase | Recycle | BlkCpy

  datatype XferData = XferData(dest: nat, src: nat, mode: Mode, m2m: bool, elementPerWidth: nat, elementNum: nat,
                               blkWidth: nat, blkHeight: nat, srcWidth: nat, dstWidth: nat)

  /** `element_num * dma_element_size[..]` in 32 bits. */
  function Count(d: XferData): nat
    requires d.elementPerWidth < 4
  {
    d.elementNum * ELEMENT_SIZE[d.elementPerWidth] % WORD
  }

  // ---- memory effects ---------------------------------------------------------------------------

  function Copied(m: Memory, dst: nat, src: nat, n: nat): (r: Memory)
    requires dst + n <= |m| && src + n <= |m|
    ensures |r| == |m|
  {
    seq(|m|, k requires 0 <= k < |m| => if dst <= k < dst + n then m[src + (k - dst)] else m[k])
  }

  /** Byte after byte, lowest address first: a source byte overwritten on the way is read as it is by then. */
  function CopyUp(m: Memory, dst: nat, src: nat, n: nat): (r: Memory)
    requires dst + n <= |m| && src + n <= |m|
    ensures |r| == |m|
  {
    if n == 0 then m
    else
      var c := CopyUp(m, dst, src, n - 1);
      c[dst + n - 1 := c[src + n - 1]]
  }

  lemma {:induction false} CopyUpOutside(m: Memory, dst: nat, src: nat, n: nat, a: nat)
    requires dst + n <= |m| && src + n <= |m| && a < |m| && (a < dst || dst + n <= a)
    ensures CopyUp(m, dst, src, n)[a] == m[a]
  {
    if n > 0 {
      CopyUpOutside(m, dst, src, n - 1, a);
    }
  }

  lemma {:induction false} CopyUpCopies(m: Memory, dst: nat, src: nat, n: nat)
    requires dst + n <= |m| && src + n <= |m| && SafeUpwards(dst, src, n)
    ensures CopyUp(m, dst, src, n) == Copied(m, dst, src, n)
  {
    if n > 0 {
      CopyUpCopies(m, dst, src, n - 1);
    }
  }

  /** Going upwards copies the source as it was, whatever memory holds, exactly when no byte is overwritten
      before it is read. */
  lemma CopyUpCopiesIff(dst: nat, src: nat, n: nat, size: nat)
    requires dst + n <= size && src + n <= size
    ensures (forall m: Memory {:trigger CopyUp(m, dst, src, n)} :: |m| == size ==> CopyUp(m, dst, src, n) == Copied(m, dst, src, n))
       <==> SafeUpwards(dst, src, n)
  {
    if SafeUpwards(dst, src, n) {
      forall m: Memory | |m| == size
        ensures CopyUp(m, dst, src, n) == Copied(m, dst, src, n)
      {
        CopyUpCopies(m, dst, src, n);
      }
    } else {
      var m: Memory := seq(size, k => if k == src then 1 else 0);
      OverwrittenSource(m, dst, src, n);
    }
  }

  /** With the destination inside the source the first byte is seen a second time. */
  lemma {:induction false} OverwrittenSource(m: Memory, dst: nat, src: nat, n: nat)
    requires dst + n <= |m| && src + n <= |m| && src < dst < src + n && m[src] != m[dst]
    ensures CopyUp(m, dst, src, n)[dst + (dst - src)] == m[src] != Copied(m, dst, src, n)[dst + (dst - src)]
  {
    var p := dst - src;
    if n == p + 1 {
      CopyUpCopies(m, dst, src, p);
    } else {
      OverwrittenSource(m, dst, src, n - 1);
    }
  }

  function Filled(m: Memory, dst: nat, v: Byte, n: nat): (r: Memory)
    requires dst + n <= |m|
    ensures |r| == |m|
  {
    seq(|m|, k requires 0 <= k < |m| => if dst <= k < dst + n then v else m[k])
  }

  /** Where row `i` of a two-dimensional block starts. */
  function Row(base: nat, width: nat, i: nat): (a: nat) {
    if i == 0 then base else Row(base, width, i - 1) + width
  }

  lemma {:induction false} RowIsProduct(base: nat, width: nat, i: nat)
    ensures Row(base, width, i) == base + i * width
  {
    if i > 0 {
      RowIsProduct(base, width, i - 1);
      assert i * width == (i - 1) * width + width;
    }
  }

  predicate BlockFits(m: Memory, d: XferData) {
    d.blkHeight > 0 ==>
      && Row(d.src, d.srcWidth, d.blkHeight - 1) + d.blkWidth <= |m|
      && Row(d.dest, d.dstWidth, d.blkHeight - 1) + d.blkWidth <= |m|
  }

  lemma {:induction false} RowMonotone(base: nat, width: nat, i: nat, j: nat)
    requires i <= j
    ensures base <= Row(base, width, i) <= Row(base, width, j)
    ensures i < j ==> Row(base, width, i) + width <= Row(base, width, j)
    decreases j
  {
    if i < j {
      RowMonotone(base, width, i, j - 1);
    } else if i > 0 {
      RowMonotone(base, width, i - 1, j - 1);
    }
  }

  lemma RowFits(m: Memory, d: XferData, i: nat)
    requires BlockFits(m, d) && i < d.blkHeight
    ensures Row(d.src, d.srcWidth, i) + d.blkWidth <= |m| && Row(d.dest, d.dstWidth, i) + d.blkWidth <= |m|
  {
    RowMonotone(d.src, d.srcWidth, i, d.blkHeight - 1);
    RowMonotone(d.dest, d.dstWidth, i, d.blkHeight - 1);
  }

  /** The first `rows` rows of a block, copied one after the other. */
  function BlkCopied(m: Memory, d: XferData, rows: nat): (r: Memory)
    requires BlockFits(m, d) && rows <= d.blkHeight
    ensures |r| == |m|
    decreases rows
  {
    if rows == 0 then m
    else
      RowFits(m, d, rows - 1);
      CopyUp(BlkCopied(m, d, rows - 1), Row(d.dest, d.dstWidth, rows - 1), Row(d.src, d.srcWidth, rows - 1), d.blkWidth)
  }

  predicate Fits(m: Memory, d: XferData)
    requires d.elementPerWidth < 4
  {
    match d.mode
    case Increase => d.dest + Count(d) <= |m| && d.src + Count(d) <= |m|
    case Recycle => d.dest + Count(d) <= |m|
    case BlkCpy => BlockFits(m, d)
  }

  /** What a transfer does to memory, whoever carries it out. */
  function Transferred(m: Memory, d: XferData): (r: Memory)
    requires d.elementPerWidth < 4 && d.src < |m| && Fits(m, d)
    ensures |r| == |m|
  {
    match d.mode
    case Increase => CopyUp(m, d.dest, d.src, Count(d))
    case Recycle => Filled(m, d.dest, m[d.src], Count(d))
    case BlkCpy => BlkCopied(m, d, d.blkHeight)
  }

  /** Elements are one, two, four or eight bytes. */
  lemma CountIs(d: XferData)
    requires d.elementPerWidth < 4
    ensures Count(d) == d.elementNum * Pow2(d.elementPerWidth) % WORD
  {
    assert Pow2(1) == 2 && Pow2(2) == 4 && Pow2(3) == 2 * Pow2(2);
  }

  /** Byte by byte, for a fill and for a copy that overwrites no source byte before it is read. */
  lemma TransferredAt(m: Memory, d: XferData, a: nat)
    requires d.elementPerWidth < 4 && d.src < |m| && Fits(m, d) && a < |m|
    requires !d.mode.BlkCpy? && (d.mode.Increase? ==> SafeUpwards(d.dest, d.src, Count(d)))
    ensures var n := d.elementNum * Pow2(d.elementPerWidth) % WORD;
            if a < d.dest || d.dest + n <= a then Transferred(m, d)[a] == m[a]
            else if d.mode.Recycle? then Transferred(m, d)[a] == m[d.src]
            else d.src + (a - d.dest) < |m| && Transferred(m, d)[a] == m[d.src + (a - d.dest)]
  {
    CountIs(d);
    if d.mode.Increase? {
      CopyUpCopies(m, d.dest, d.src, Count(d));
    }
  }

  /** No byte a copy reads is overwritten before it is read, going upwards. */
  predicate SafeUpwards(dst: nat, src: nat, n: nat) {
    dst <= src || src + n <= dst
  }

  /** A block copy whose rows are no wider than the destination stride and whose source area is apart. */
  predicate BlockApart(d: XferData) {
    d.blkHeight > 0 ==>
      && d.blkWidth <= d.dstWidth
      && (Row(d.src, d.srcWidth, d.blkHeight - 1) + d.blkWidth <= d.dest
          || Row(d.dest, d.dstWidth, d.blkHeight - 1) + d.blkWidth <= d.src)
  }

  /** What the last of `rows` rows does to a byte it writes, and to a byte it does not. */
  lemma LastRowInside(m: Memory, d: XferData, rows: nat, to: nat, from: nat)
    requires BlockFits(m, d) && 0 < rows <= d.blkHeight && to < |m| && from < |m|
    requires 0 <= to - Row(d.dest, d.dstWidth, rows - 1) == from - Row(d.src, d.srcWidth, rows - 1) < d.blkWidth
    requires SafeUpwards(Row(d.dest, d.dstWidth, rows - 1), Row(d.src, d.srcWidth, rows - 1), d.blkWidth)
    ensures BlkCopied(m, d, rows)[to] == BlkCopied(m, d, rows - 1)[from]
  {
    RowFits(m, d, rows - 1);
    CopyUpCopies(BlkCopied(m, d, rows - 1), Row(d.dest, d.dstWidth, rows - 1), Row(d.src, d.srcWidth, rows - 1), d.blkWidth);
  }

  lemma LastRowOutside(m: Memory, d: XferData, rows: nat, a: nat)
    requires BlockFits(m, d) && 0 < rows <= d.blkHeight && a < |m|
    requires a < Row(d.dest, d.dstWidth, rows - 1) || Row(d.dest, d.dstWidth, rows - 1) + d.blkWidth <= a
    ensures BlkCopied(m, d, rows)[a] == BlkCopied(m, d, rows - 1)[a]
  {
    RowFits(m, d, rows - 1);
    CopyUpOutside(BlkCopied(m, d, rows - 1), Row(d.dest, d.dstWidth, rows - 1), Row(d.src, d.srcWidth, rows - 1), d.blkWidth, a);
  }

  lemma BlkStep(m: Memory, d: XferData, i: nat)
    requires BlockFits(m, d) && i < d.blkHeight
    ensures Row(d.src, d.srcWidth, i + 1) == Row(d.src, d.srcWidth, i) + d.srcWidth
    ensures Row(d.dest, d.dstWidth, i + 1) == Row(d.dest, d.dstWidth, i) + d.dstWidth
    ensures Row(d.src, d.srcWidth, i) + d.blkWidth <= |m| && Row(d.dest, d.dstWidth, i) + d.blkWidth <= |m|
    ensures BlkCopied(m, d, i + 1)
         == CopyUp(BlkCopied(m, d, i), Row(d.dest, d.dstWidth, i), Row(d.src, d.srcWidth, i), d.blkWidth)
  {
    RowFits(m, d, i);
  }

  /** No destination row of the first `rows` contains `a`. */
  ghost predicate OutsideRows(d: XferData, rows: nat, a: nat) {
    forall i {:trigger Row(d.dest, d.dstWidth, i)} :: 0 <= i < rows ==>
      a < Row(d.dest, d.dstWidth, i) || Row(d.dest, d.dstWidth, i) + d.blkWidth <= a
  }

  lemma SourceOutside(d: XferData, rows: nat, row: nat, col: nat)
    requires BlockApart(d) && rows <= d.blkHeight && row < d.blkHeight && col < d.blkWidth
    ensures OutsideRows(d, rows, Row(d.src, d.srcWidth, row) + col)
  {
    RowMonotone(d.src, d.srcWidth, row, d.blkHeight - 1);
    forall i | 0 <= i < rows
      ensures Row(d.src, d.srcWidth, row) + col < Row(d.dest, d.dstWidth, i)
           || Row(d.dest, d.dstWidth, i) + d.blkWidth <= Row(d.src, d.srcWidth, row) + col
    {
      RowMonotone(d.dest, d.dstWidth, i, d.blkHeight - 1);
    }
  }

  /** Byte (row, col) of the block, at `from`, arrives at `to`, for every row and column. */
  lemma {:induction false} BlockArrives(m: Memory, d: XferData, rows: nat, row: nat, col: nat, to: nat, from: nat)
    requires BlockFits(m, d) && BlockApart(d) && row < rows <= d.blkHeight && col < d.blkWidth
    requires to == Row(d.dest, d.dstWidth, row) + col && from == Row(d.src, d.srcWidth, row) + col
    ensures to < |m| && from < |m| && BlkCopied(m, d, rows)[to] == m[from]
    decreases rows
  {
    RowFits(m, d, row);
    if row == rows - 1 {
      LastRowArrives(m, d, rows, col, to, from);
    } else {
      AfterRow(d, row, rows - 1, col);
      LastRowOutside(m, d, rows, to);
      BlockArrives(m, d, rows - 1, row, col, to, from);
    }
  }

  lemma LastRowArrives(m: Memory, d: XferData, rows: nat, col: nat, to: nat, from: nat)
    requires BlockFits(m, d) && BlockApart(d) && 0 < rows <= d.blkHeight && col < d.blkWidth && to < |m| && from < |m|
    requires to == Row(d.dest, d.dstWidth, rows - 1) + col && from == Row(d.src, d.srcWidth, rows - 1) + col
    ensures BlkCopied(m, d, rows)[to] == m[from]
  {
    SourceOutside(d, rows - 1, rows - 1, col);
    ApartIsSafe(d);
    LastRowInside(m, d, rows, to, from);
    BlockLeaves(m, d, rows - 1, from);
  }

  lemma AfterRow(d: XferData, row: nat, last: nat, col: nat)
    requires row < last && d.blkWidth <= d.dstWidth && col < d.blkWidth
    ensures Row(d.dest, d.dstWidth, row) + col < Row(d.dest, d.dstWidth, last)
  {
    RowMonotone(d.dest, d.dstWidth, row, last);
  }

  /** An address inside no destination row keeps its byte: the gaps between rows, and everything around. */
  lemma {:induction false} BlockLeaves(m: Memory, d: XferData, rows: nat, a: nat)
    requires BlockFits(m, d) && rows <= d.blkHeight && a < |m| && OutsideRows(d, rows, a)
    ensures BlkCopied(m, d, rows)[a] == m[a]
    decreases rows
  {
    if rows > 0 {
      LastRowOutside(m, d, rows, a);
      BlockLeaves(m, d, rows - 1, a);
    }
  }

  // ---- the driver -------------------------------------------------------------------------------

  /** `hg_m2m_dma_get_free_ch`: a fixed channel, or (`fix >= 2`) channel 1 and then channel 0. */
  function FreeChannel(busy: set<nat>, fix: nat): (ch: int)
    ensures -1 <= ch < 2 && (ch >= 0 ==> ch !in busy)
    ensures fix < HG_M2M_DMA_NUM ==> ch == if fix in busy then -1 else fix
    ensures fix >= HG_M2M_DMA_NUM ==> (ch == -1 <==> {0, 1} <= busy) && (ch == 0 ==> 1 in busy)
  {
    if fix < HG_M2M_DMA_NUM then (if fix in busy then -1 else fix)
    else if 1 !in busy then 1
    else if 0 !in busy then 0
    else -1
  }

  class MemDma {
    const mem: array<Byte>
    var busy: set<nat>
    var ch0Lock: bool

    constructor (size: nat)
      ensures fresh(mem) && mem.Length == size && busy == {} && !ch0Lock
    {
      mem := new Byte[size](_ => 0);
      busy := {};
      ch0Lock := false;
    }

    method GetFreeCh(fix: nat) returns (ch: int)
      modifies this`busy
      ensures ch == FreeChannel(old(busy), fix)
      ensures busy == if ch >= 0 then old(busy) + {ch} else old(busy)
    {
      ch := if fix >= HG_M2M_DMA_NUM then 1 else fix;
      while ch >= 0
        invariant -1 <= ch < 2 && busy == old(busy)
        invariant fix < HG_M2M_DMA_NUM && ch >= 0 ==> ch == fix
        invariant fix < HG_M2M_DMA_NUM && ch < 0 ==> fix in busy
        invariant fix >= HG_M2M_DMA_NUM && ch < 1 ==> 1 in busy
        invariant fix >= HG_M2M_DMA_NUM && ch < 0 ==> 0 in busy
        decreases ch
      {
        if ch !in busy {
          busy := busy + {ch};
          break;
        }
        if fix < HG_M2M_DMA_NUM {
          ch := -1;
          break;
        } else {
          ch := ch - 1;
        }
      }
    }

    method FreeCh(ch: nat)
      modifies this`busy
      ensures busy == old(busy) - {ch}
    {
      busy := busy - {ch};
    }

    /** Between two attempts other callers take and return channels; one of them may set `ch0_lock`. */
    method OthersRun()
      modifies this`busy, this`ch0Lock
    {
      var b: set<nat> := *;
      var l: bool := *;
      busy := b;
      ch0Lock := l;
    }

    /** One channel operation in MEMCPY mode: DLEN + 1 bytes, lowest address first. `os_memcpy` is taken to
        copy in the same order. */
    method CopyUpwards(dst: nat, src: nat, n: nat)
      requires dst + n <= mem.Length && src + n <= mem.Length
      modifies mem
      ensures mem[..] == CopyUp(old(mem[..]), dst, src, n)
    {
      ghost var m := mem[..];
      for i := 0 to n
        invariant mem[..] == CopyUp(m, dst, src, i)
      {
        mem[dst + i] := mem[src + i];
      }
    }

    /** The engine at work on `n` bytes; about a transfer that leaves the memory nothing is said. */
    method EngineCopy(dst: nat, src: nat, n: nat)
      modifies mem
      ensures dst + n <= mem.Length && src + n <= mem.Length ==> mem[..] == CopyUp(old(mem[..]), dst, src, n)
    {
      if dst + n <= mem.Length && src + n <= mem.Length {
        CopyUpwards(dst, src, n);
      } else {
        RunAway();
      }
    }

    method EngineFill(dst: nat, v: Byte, n: nat)
      modifies mem
      ensures dst + n <= mem.Length ==> mem[..] == Filled(old(mem[..]), dst, v, n)
    {
      if dst + n <= mem.Length {
        FillUpwards(dst, v, n);
      } else {
        RunAway();
      }
    }

    method RunAway()
      modifies mem
    {
      for i := 0 to mem.Length {
        var v: Byte := *;
        mem[i] := v;
      }
    }

    method FillUpwards(dst: nat, v: Byte, n: nat)
      requires dst + n <= mem.Length
      modifies mem
      ensures mem[..] == Filled(old(mem[..]), dst, v, n)
    {
      ghost var m := mem[..];
      for i := 0 to n
        invariant forall k :: 0 <= k < mem.Length ==> mem[k] == if dst <= k < dst + i then v else m[k]
      {
        mem[dst + i] := v;
      }
    }

    /** `hw_blkcpy`: one channel operation per row, then the channel goes back. */
    method HwBlkcpy(d: XferData, ch: nat)
      requires BlockFits(mem[..], d) && d.blkWidth < WORD
      modifies mem, this`busy
      ensures d.blkWidth > 0 || d.blkHeight == 0 ==> mem[..] == BlkCopied(old(mem[..]), d, d.blkHeight)
      ensures busy == old(busy) - {ch}
    {
      ghost var m := mem[..];
      var dlen := DlenRegister(d.blkWidth);
      EngineMovesNonEmpty(d.blkWidth);
      var srcStep, dstStep := 0, 0;
      for i := 0 to d.blkHeight
        invariant d.src + srcStep == Row(d.src, d.srcWidth, i) && d.dest + dstStep == Row(d.dest, d.dstWidth, i)
        invariant d.blkWidth > 0 || i == 0 ==> mem[..] == BlkCopied(m, d, i)
        invariant busy == old(busy)
      {
        RowFits(m, d, i);
        EngineCopy(d.dest + dstStep, d.src + srcStep, dlen + 1);
        BlkStep(m, d, i);
        srcStep := srcStep + d.srcWidth;
        dstStep := dstStep + d.dstWidth;
      }
      FreeCh(ch);
    }

    /** `soft_blkcpy`: row by row; its inner loop is `CopyUpwards`. */
    method SoftBlkcpy(d: XferData)
      requires BlockFits(mem[..], d)
      modifies mem
      ensures mem[..] == BlkCopied(old(mem[..]), d, d.blkHeight)
    {
      ghost var m := mem[..];
      var srcStep, dstStep := 0, 0;
      for i := 0 to d.blkHeight
        invariant d.src + srcStep == Row(d.src, d.srcWidth, i) && d.dest + dstStep == Row(d.dest, d.dstWidth, i)
        invariant mem[..] == BlkCopied(m, d, i)
      {
        RowFits(m, d, i);
        var src, dst := d.src + srcStep, d.dest + dstStep;
        srcStep := srcStep + d.srcWidth;
        dstStep := dstStep + d.dstWidth;
        CopyUpwards(dst, src, d.blkWidth);
        BlkStep(m, d, i);
      }
    }

    /** `hg_m2m_dma_xfer`. The memory effect does not depend on which channel, or whether software, served
        it, except for a request of nothing, which an engine does not understand; the channel taken is
        returned; `before` is the busy set the last attempt met. */
    method Xfer(d: XferData) returns (ret: int, ghost attempts: nat, ghost before: set<nat>)
      requires d.src < mem.Length && d.blkWidth < WORD
      requires d.elementPerWidth < 4 ==> Fits(mem[..], d)
      modifies mem, this`busy, this`ch0Lock
      ensures d.elementPerWidth >= 4 ==> ret == -EBUSY && mem[..] == old(mem[..]) && busy == before == old(busy)
      ensures d.elementPerWidth < 4 && (NonEmpty(d) || ret < 0) ==> mem[..] == Transferred(old(mem[..]), d)
      ensures d.elementPerWidth < 4 ==> -1 <= ret < HG_M2M_DMA_NUM
      ensures busy == before && (ret >= 0 ==> ret !in busy)
      ensures ret == 0 ==> ch0Lock == !d.m2m
      ensures !d.m2m ==> ret <= 0
      ensures d.elementPerWidth < 4 ==> 1 <= attempts <= Count(d) / 256 + 1
    {
      attempts, before := 0, busy;
      var val := mem[d.src];
      if d.elementPerWidth >= 4 {
        return -EBUSY, attempts, before;
      }
      var count := Count(d);
      var retry := count / 256;
      var ch;
      while true
        invariant mem[..] == old(mem[..]) && attempts + retry == count / 256
        decreases retry
      {
        attempts, before := attempts + 1, busy;
        if !d.m2m {
          ch := GetFreeCh(0);
          if ch == 0 {
            ch0Lock := true;
          }
        } else {
          ch := GetFreeCh(if ch0Lock then 1 else HG_M2M_DMA_NUM);
        }
        if ch >= 0 || retry == 0 {
          break;
        }
        retry := retry - 1;
        OthersRun();
      }
      if ch < 0 {
        match d.mode {
          case Recycle => FillUpwards(d.dest, val, count);
          case Increase => CopyUpwards(d.dest, d.src, count);
          case BlkCpy => SoftBlkcpy(d);
        }
        return ch, attempts, before;
      }
      if d.mode.BlkCpy? {
        HwBlkcpy(d, ch);
        return ch, attempts, before;
      }
      var dlen := DlenRegister(count);
      EngineMovesNonEmpty(count);
      if d.mode.Recycle? {
        EngineFill(d.dest, val, dlen + 1);
      } else {
        EngineCopy(d.dest, d.src, dlen + 1);
      }
      FreeCh(ch);
      return ch, attempts, before;
    }
  }

  /** `DMA_DLEN = n - 1` in 32 bits; the engine moves one byte more than the register says. */
  function DlenRegister(n: nat): (dlen: nat) {
    (n + (WORD - 1)) % WORD
  }

  /** The engine moves `n` bytes exactly when the request is not empty (and fits 32 bits): an empty one,
      which the software path serves as nothing, would make it run through 2^32 bytes. */
  lemma EngineMovesNonEmpty(n: nat)
    requires n < WORD
    ensures DlenRegister(n) + 1 == n <==> n > 0
    ensures n == 0 ==> DlenRegister(n) + 1 == WORD
  {
    if n > 0 {
      assert n + (WORD - 1) == (n - 1) + WORD;
    }
  }

  /** Every row can be copied upwards. */
  predicate RowsSafe(d: XferData) {
    forall i {:trigger Row(d.dest, d.dstWidth, i)} :: 0 <= i < d.blkHeight ==>
      SafeUpwards(Row(d.dest, d.dstWidth, i), Row(d.src, d.srcWidth, i), d.blkWidth)
  }

  predicate NonEmpty(d: XferData)
    requires d.elementPerWidth < 4
  {
    if d.mode.BlkCpy? then d.blkWidth > 0 || d.blkHeight == 0 else Count(d) > 0
  }

  /** Areas that are apart can be copied in any order, in particular row by row upwards. */
  lemma ApartIsSafe(d: XferData)
    requires BlockApart(d)
    ensures RowsSafe(d)
  {
    forall i | 0 <= i < d.blkHeight
      ensures SafeUpwards(Row(d.dest, d.dstWidth, i), Row(d.src, d.srcWidth, i), d.blkWidth)
    {
      RowMonotone(d.src, d.srcWidth, i, d.blkHeight - 1);
      RowMonotone(d.dest, d.dstWidth, i, d.blkHeight - 1);
    }
  }
}
