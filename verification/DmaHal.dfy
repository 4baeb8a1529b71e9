/** `dma_memcpy` and `dma_memset` (sdk/hal/dma.c) over the memory-to-memory DMA driver. */
module DmaHal {
  import opened Bits
  import opened M2mDma

  const SRAM_BASE := 0x2000_0000

  /** A transfer of `n` single bytes. */
  function ByteTransfer(dest: nat, src: nat, mode: Mode, m2m: bool, n: nat): (d: XferData)
    ensures d.elementPerWidth == 0 && (n < WORD ==> Count(d) == n)
  {
    XferData(dest, src, mode, m2m, 0, n, 0, 0, 0, 0)
  }

  method SaveBytes(mem: array<Byte>, src: nat, buf: array<Byte>, at: nat)
    requires src + 16 <= mem.Length && at + 16 <= buf.Length && mem != buf
    modifies buf
    ensures buf[at..at + 16] == mem[src..src + 16] && buf[..at] == old(buf[..at])
  {
    for i := 0 to 16
      invariant buf[at..at + i] == mem[src..src + i] && buf[..at] == old(buf[..at])
    {
      buf[at + i] := mem[src + i];
    }
  }

  /** `b` is the first 16 and the last 16 of the `n` bytes at `src`. */
  ghost predicate HoldsEnds(b: seq<Byte>, m: Memory, src: nat, n: nat)
    requires n > 32 && src + n <= |m|
  {
    && |b| == 32
    && b[..16] == m[src..src + 16] && b[16..] == m[src + n - 16..src + n]
  }

  method SaveEnds(mem: array<Byte>, src: nat, n: nat, ghost m: Memory) returns (buf: array<Byte>, ghost ends: seq<Byte>)
    requires n > 32 && src + n <= mem.Length && mem[..] == m
    ensures fresh(buf) && buf[..] == ends && HoldsEnds(ends, m, src, n)
  {
    buf := new Byte[32];
    SaveBytes(mem, src, buf, 0);
    SaveBytes(mem, src + n - 16, buf, 16);
    ends := buf[..];
    assert ends[..16] == buf[..16] && ends[16..] == buf[16..32];
    assert mem[..][src..src + 16] == mem[src..src + 16] && mem[..][src + n - 16..src + n] == mem[src + n - 16..src + n];
  }

  method RestoreBytes(mem: array<Byte>, dst: nat, buf: array<Byte>, at: nat)
    requires dst + 16 <= mem.Length && at + 16 <= buf.Length && mem != buf
    modifies mem
    ensures mem[..] == Put(old(mem[..]), dst, buf[at..at + 16])
  {
    ghost var m, bytes := mem[..], buf[at..at + 16];
    for i := 0 to 16
      invariant forall k {:trigger mem[k]} :: 0 <= k < mem.Length ==> mem[k] == if dst <= k < dst + i then bytes[k - dst] else m[k]
    {
      mem[dst + i] := buf[at + i];
    }
  }

  /** The first 16 bytes, the middle and the last 16 bytes put together are the whole copy. */
  lemma PiecesMakeCopy(m: Memory, dst: nat, src: nat, n: nat, head: seq<Byte>, tail: seq<Byte>)
    requires n > 32 && dst + n <= |m| && src + n <= |m|
    requires head == m[src..src + 16] && tail == m[src + n - 16..src + n]
    ensures Put(Put(Copied(m, dst + 16, src + 16, n - 32), dst, head), dst + n - 16, tail) == Copied(m, dst, src, n)
  {
  }

  /** The transfer between the two ends saved in `buf`, which it does not touch. */
  method MoveMiddle(dma: MemDma, dst: nat, src: nat, n: nat, ghost buf: array<Byte>, ghost ends: seq<Byte>, ghost c: Memory)
    requires buf != dma.mem && buf[..] == ends
    requires 0 < n && dst + n <= dma.mem.Length && src + n <= dma.mem.Length <= WORD
    requires c == Copied(dma.mem[..], dst, src, n)
    requires dst >= 16 && src >= 16 && SafeUpwards(dst - 16, src - 16, n + 32)
    modifies dma.mem, dma`busy, dma`ch0Lock
    ensures dma.mem[..] == c && buf[..] == ends
  {
    var data := ByteTransfer(dst, src, Increase, !(dst - 16 < SRAM_BASE || src - 16 < SRAM_BASE), n);
    CopyUpCopies(dma.mem[..], dst, src, n);
    var ret, attempts, before := dma.Xfer(data);
  }

  /** With the middle moved, the saved ends complete the copy. */
  method RestoreEnds(mem: array<Byte>, dst: nat, src: nat, n: nat, buf: array<Byte>, ghost ends: seq<Byte>, ghost m: Memory, ghost c: Memory)
    requires n > 32 && dst + n <= mem.Length == |m| && src + n <= mem.Length && mem != buf
    requires mem[..] == c == Copied(m, dst + 16, src + 16, n - 32) && buf[..] == ends && HoldsEnds(ends, m, src, n)
    modifies mem
    ensures mem[..] == Copied(m, dst, src, n)
  {
    ghost var head, tail := buf[0..16], buf[16..32];
    assert head == m[src..src + 16] && tail == m[src + n - 16..src + n] by {
      assert head == ends[..16] && tail == ends[16..];
    }
    PiecesMakeCopy(m, dst, src, n, head, tail);
    RestoreBytes(mem, dst, buf, 0);
    assert mem[..] == Put(c, dst, head) && buf[16..32] == tail;
    RestoreBytes(mem, dst + n - 16, buf, 16);
  }

  /** The part of `dma_memcpy` for more than 32 bytes: both ends are saved before the middle is moved,
      and written last. */
  method MemcpyByEngine(dma: MemDma, dst: nat, src: nat, n: nat)
    requires n > 32 && dst + n <= dma.mem.Length && src + n <= dma.mem.Length && dma.mem.Length <= WORD
    requires SafeUpwards(dst, src, n)
    modifies dma.mem, dma`busy, dma`ch0Lock
    ensures dma.mem[..] == Copied(old(dma.mem[..]), dst, src, n)
  {
    ghost var m := dma.mem[..];
    ghost var c := Copied(m, dst + 16, src + 16, n - 32);
    var buf, ends := SaveEnds(dma.mem, src, n, m);
    MoveMiddle(dma, dst + 16, src + 16, n - 32, buf, ends, c);
    RestoreEnds(dma.mem, dst, src, n, buf, ends, m, c);
  }

  /** Byte by byte, what a copied and a filled memory hold. */
  lemma CopiedAt(m: Memory, dst: nat, src: nat, n: nat, a: nat)
    requires dst + n <= |m| && src + n <= |m| && a < |m|
    ensures Copied(m, dst, src, n)[a] == if a < dst || dst + n <= a then m[a] else m[src + (a - dst)]
  {
  }

  lemma FilledAt(m: Memory, dst: nat, v: Byte, n: nat, a: nat)
    requires dst + n <= |m| && a < |m|
    ensures Filled(m, dst, v, n)[a] == if a < dst || dst + n <= a then m[a] else v
  {
  }

  /** `dma_memcpy`: the destination ends up with what the source held on entry, for disjoint ranges and for
      a destination below the source, whichever way the middle part is carried. */
  method DmaMemcpy(dma: MemDma, dst: nat, src: nat, n: nat)
    requires dst + n <= dma.mem.Length && src + n <= dma.mem.Length && dma.mem.Length <= WORD
    requires SafeUpwards(dst, src, n)
    modifies dma.mem, dma`busy, dma`ch0Lock
    ensures dma.mem[..] == Copied(old(dma.mem[..]), dst, src, n)
  {
    if n > 32 {
      MemcpyByEngine(dma, dst, src, n);
      return;
    }
    ghost var m := dma.mem[..];
    var mem := dma.mem;
    for i := 0 to n
      invariant forall k {:trigger mem[k]} :: 0 <= k < mem.Length ==>
                  mem[k] == if dst <= k < dst + i then m[src + (k - dst)] else m[k]
    {
      mem[dst + i] := mem[src + i];
    }
  }

  /** `dma_memset`: exactly the `n` bytes from `dst` take the value. The driver reads it from the caller's
      local variable, which lives at `val`. */
  method DmaMemset(dma: MemDma, dst: nat, c: Byte, n: nat, val: nat)
    requires dst + n <= dma.mem.Length <= WORD && val < dma.mem.Length && !(dst <= val < dst + n)
    modifies dma.mem, dma`busy, dma`ch0Lock
    ensures dma.mem[..] == Filled(old(dma.mem[..])[val := c], dst, c, n)
  {
    var mem := dma.mem;
    mem[val] := c;
    ghost var m := mem[..];
    if n <= 32 {
      for i := 0 to n
        invariant forall k {:trigger mem[k]} :: 0 <= k < mem.Length ==> mem[k] == if dst <= k < dst + i then c else m[k]
      {
        mem[dst + i] := mem[val];
      }
      return;
    }
    var dst2 := dst + n - 16;
    var data := ByteTransfer(dst + 16, val, Recycle, !(dst < SRAM_BASE), n - 32);
    var ret, attempts, before := dma.Xfer(data);
    ghost var f := Filled(m, dst + 16, c, n - 32);
    for i := 0 to 16
      invariant forall k {:trigger mem[k]} :: 0 <= k < mem.Length ==> mem[k] == if dst <= k < dst + i then c else f[k]
    {
      mem[dst + i] := mem[val];
    }
    for i := 0 to 16
      invariant forall k {:trigger mem[k]} :: 0 <= k < mem.Length ==>
                  mem[k] == if dst <= k < dst + 16 || dst2 <= k < dst2 + i then c else f[k]
    {
      mem[dst2 + i] := mem[val];
    }
  }
}
