/** Writing a NOR flash page by page (sdk/hal/spi_nor.c). */
module SpiNor {
  import opened Bits

  type Bytes = seq<Byte>

  // ---- the device --------------------------------------------------------------------------------

  /** Programming only clears bits. This is what one would like a write to do, at any address and length. */
  function FlatAnd(m: Bytes, addr: nat, data: Bytes): (r: Bytes)
    requires addr + |data| <= |m|
    ensures |r| == |m|
  {
    seq(|m|, a requires 0 <= a < |m| => if addr <= a < addr + |data| then AndByte(m[a], data[a - addr]) else m[a])
  }

  function Base(page: nat, addr: nat): (b: nat)
    requires page > 0
  {
    addr - addr % page
  }

  /** How far address `a` comes after `addr` when counting wraps inside the page. */
  function Offset(page: nat, addr: nat, a: nat): (k: nat)
    requires page > 0 && Base(page, addr) <= a < Base(page, addr) + page
    ensures k < page
  {
    if a >= addr then a - addr else a + page - addr
  }

  /** What the device does: bytes past the end of the page land at its beginning. */
  function Programmed(page: nat, m: Bytes, addr: nat, data: Bytes): (r: Bytes)
    requires page > 0 && Base(page, addr) + page <= |m| && |data| <= page
    ensures |r| == |m|
  {
    seq(|m|, a requires 0 <= a < |m| =>
      if Base(page, addr) <= a < Base(page, addr) + page && Offset(page, addr, a) < |data|
      then AndByte(m[a], data[Offset(page, addr, a)]) else m[a])
  }

  /** The sector that `addr` lies in, all ones. */
  function Erased(sector: nat, m: Bytes, addr: nat): (r: Bytes)
    requires sector > 0
    ensures |r| == |m|
  {
    seq(|m|, a requires 0 <= a < |m| => if InSector(sector, addr, a) then 0xFF else m[a])
  }

  predicate InSector(sector: nat, addr: nat, a: nat)
    requires sector > 0
  {
    Base(sector, addr) <= a < Base(sector, addr) + sector
  }

  /** A program call that stays inside its page is a flat one, and only then for some data. */
  lemma ProgramInPage(page: nat, m: Bytes, addr: nat, data: Bytes)
    requires page > 0 && Base(page, addr) + page <= |m| && addr % page + |data| <= page
    ensures Programmed(page, m, addr, data) == FlatAnd(m, addr, data)
  {
  }

  /** Byte by byte, what a write and an erase leave: outside the range, and outside the sector, all is as it was. */
  lemma FlatAndAt(m: Bytes, addr: nat, data: Bytes, a: nat)
    requires addr + |data| <= |m| && a < |m|
    ensures FlatAnd(m, addr, data)[a] == if a < addr || addr + |data| <= a then m[a] else AndByte(m[a], data[a - addr])
  {
  }

  lemma ErasedAt(sector: nat, m: Bytes, addr: nat, a: nat)
    requires sector > 0 && a < |m|
    ensures var base := sector * (addr / sector);
            Erased(sector, m, addr)[a] == if base <= a < base + sector then 0xFF else m[a]
  {
    assert addr == sector * (addr / sector) + addr % sector;
  }

  lemma FlatAndAppend(m: Bytes, addr: nat, a: Bytes, b: Bytes)
    requires addr + |a| + |b| <= |m|
    ensures FlatAnd(FlatAnd(m, addr, a), addr + |a|, b) == FlatAnd(m, addr, a + b)
  {
  }

  /** The bytes read back are the bytes written exactly when the flash had every needed bit set. */
  lemma ReadBackIff(m: Bytes, addr: nat, data: Bytes)
    requires addr + |data| <= |m|
    ensures FlatAnd(m, addr, data)[addr..addr + |data|] == data
       <==> forall i :: 0 <= i < |data| ==> Covers(8, m[addr + i], data[i])
  {
    PowerValues();
    var back := FlatAnd(m, addr, data)[addr..addr + |data|];
    forall i | 0 <= i < |data|
      ensures back[i] == data[i] <==> Covers(8, m[addr + i], data[i])
    {
      AndIsIdentityIffCovers(8, m[addr + i], data[i]);
    }
    if back == data {
      forall i | 0 <= i < |data|
        ensures Covers(8, m[addr + i], data[i])
      {
        assert back[i] == data[i];
      }
    }
  }

  // ---- the calls ----------------------------------------------------------------------------------

  datatype Call = Call(addr: nat, data: Bytes)

  function Joined(calls: seq<Call>): (r: Bytes) {
    if calls == [] then [] else Joined(calls[..|calls| - 1]) + calls[|calls| - 1].data
  }

  /** Every call stays in one page, and starts where the one before ended. */
  predicate WellPlaced(page: nat, addr: nat, calls: seq<Call>)
    requires page > 0
  {
    calls == [] ||
    (var n := |calls| - 1;
     && WellPlaced(page, addr, calls[..n])
     && calls[n].addr == addr + |Joined(calls[..n])|
     && calls[n].addr % page + |calls[n].data| <= page)
  }

  lemma {:induction false} WellPlacedMeans(page: nat, addr: nat, calls: seq<Call>, i: nat)
    requires page > 0 && WellPlaced(page, addr, calls) && i < |calls|
    ensures calls[i].addr % page + |calls[i].data| <= page
    ensures calls[i].addr == if i == 0 then addr else calls[i - 1].addr + |calls[i - 1].data|
    decreases |calls|
  {
    var n := |calls| - 1;
    if i < n {
      WellPlacedMeans(page, addr, calls[..n], i);
    } else if i > 0 {
      assert calls[..n][..n - 1] == calls[..n - 1] && calls[..n][n - 1] == calls[n - 1];
    }
  }

  /** The pages counted are those that hold a byte of the range. */
  lemma PagesAre(page: nat, addr: nat, n: nat, p: nat)
    requires page > 0 && n > 0
    ensures addr / page <= p < addr / page + PagesTouched(page, addr, n) <==> exists a :: addr <= a < addr + n && a / page == p
  {
    if addr / page <= p <= (addr + n - 1) / page {
      var a := if p == addr / page then addr else page * p;
      MultipleOf(page, p);
      if p > addr / page {
        PageStart(page, addr, p);
        PageEnd(page, addr + n - 1, p);
      }
      assert addr <= a < addr + n && a / page == p;
    }
    if a :| addr <= a < addr + n && a / page == p {
      DivMonotone(page, addr, a);
      DivMonotone(page, a, addr + n - 1);
    }
  }

  lemma PageStart(page: nat, x: nat, p: nat)
    requires page > 0 && x / page < p
    ensures x < page * p
  {
    MulStep(page, x / page, p);
    assert x == page * (x / page) + x % page;
  }

  lemma PageEnd(page: nat, x: nat, p: nat)
    requires page > 0 && p <= x / page
    ensures page * p <= x
  {
    assert x == page * (x / page) + x % page;
    if p < x / page {
      MulStep(page, p, x / page);
    }
  }

  lemma Snoc(page: nat, addr: nat, calls: seq<Call>, c: Call)
    requires page > 0 && WellPlaced(page, addr, calls)
    requires c.addr == addr + |Joined(calls)| && c.addr % page + |c.data| <= page
    ensures WellPlaced(page, addr, calls + [c]) && Joined(calls + [c]) == Joined(calls) + c.data
  {
    assert (calls + [c])[..|calls|] == calls;
  }

  /** How many pages the `n` bytes from `addr` on lie in. */
  function PagesTouched(page: nat, addr: nat, n: nat): (k: nat)
    requires page > 0 && n > 0
  {
    LastPage(page, addr, n);
    (addr + n - 1) / page - addr / page + 1
  }

  lemma LastPage(page: nat, addr: nat, n: nat)
    requires page > 0 && n > 0
    ensures (addr + n - 1) / page >= addr / page
  {
    DivMonotone(page, addr, addr + n - 1);
  }

  lemma MulStep(page: nat, a: nat, b: nat)
    requires a < b
    ensures page * a + page <= page * b
  {
    assert page * b == page * a + page * (b - a);
    assert page * (b - a) == page + page * (b - a - 1);
  }

  lemma DivMonotone(page: nat, a: nat, b: nat)
    requires page > 0 && a <= b
    ensures a / page <= b / page
  {
    if b / page < a / page {
      MulStep(page, b / page, a / page);
    }
  }

  /** The start of the next page, and its number. */
  lemma NextPage(page: nat, addr: nat)
    requires page > 0
    ensures (addr + (page - addr % page)) % page == 0 && (addr + (page - addr % page)) / page == addr / page + 1
  {
    MultipleOf(page, addr / page + 1);
    assert addr + (page - addr % page) == page * (addr / page + 1);
  }

  lemma MultipleOf(page: nat, q: nat)
    requires page > 0
    ensures page * q % page == 0 && page * q / page == q
  {
    DivUnique(page, page * q, q, 0);
  }

  lemma DivUnique(page: nat, x: nat, q: nat, r: nat)
    requires page > 0 && r < page && x == page * q + r
    ensures x / page == q && x % page == r
  {
    var q' := x / page;
    if q > q' {
      MulStep(page, q', q);
    } else if q < q' {
      MulStep(page, q, q');
    }
  }

  lemma SamePage(page: nat, addr: nat, n: nat)
    requires page > 0 && n > 0 && addr % page + n <= page
    ensures (addr + n - 1) / page == addr / page
  {
    DivUnique(page, addr + n - 1, addr / page, addr % page + n - 1);
  }

  lemma PageFits(page: nat, size: nat, addr: nat)
    requires page > 0 && size % page == 0 && addr < size
    ensures Base(page, addr) + page <= size
  {
    var q, s := addr / page, size / page;
    DivMonotone(page, addr, size);
    if q < s {
      MulStep(page, q, s);
    }
  }

  /** Where a write stands: `calls` have been issued, `buf` is still to be written, from `addr` on. */
  ghost predicate Progress(page: nat, m0: Bytes, addr0: nat, buf0: Bytes, m: Bytes, addr: nat, buf: Bytes, calls: seq<Call>)
    requires page > 0
  {
    && addr0 + |buf0| <= |m0| && addr == addr0 + |Joined(calls)| && buf0 == Joined(calls) + buf
    && WellPlaced(page, addr0, calls)
    && m == FlatAnd(m0, addr0, Joined(calls))
  }

  lemma ProgressStep(page: nat, m0: Bytes, addr0: nat, buf0: Bytes, m: Bytes, addr: nat, buf: Bytes, calls: seq<Call>, n: nat)
    requires page > 0 && Progress(page, m0, addr0, buf0, m, addr, buf, calls)
    requires n <= |buf| && addr % page + n <= page && Base(page, addr) + page <= |m|
    ensures Progress(page, m0, addr0, buf0, Programmed(page, m, addr, buf[..n]), addr + n, buf[n..], calls + [Call(addr, buf[..n])])
  {
    var c := Call(addr, buf[..n]);
    Snoc(page, addr0, calls, c);
    ProgramInPage(page, m, addr, c.data);
    FlatAndAppend(m0, addr0, Joined(calls), c.data);
    assert Joined(calls) + buf == (Joined(calls) + buf[..n]) + buf[n..];
  }

  class Flash {
    const pageSize: nat
    const sectorSize: nat
    const mem: array<Byte>
    ghost var log: seq<Call>

    predicate Valid()
      reads this
    {
      pageSize > 0 && mem.Length % pageSize == 0 && sectorSize > 0 && mem.Length % sectorSize == 0
    }

    /** One program command. */
    method Program(addr: nat, buf: Bytes)
      requires Valid() && Base(pageSize, addr) + pageSize <= mem.Length && |buf| <= pageSize
      modifies mem, this`log
      ensures mem[..] == Programmed(pageSize, old(mem[..]), addr, buf)
      ensures log == old(log) + [Call(addr, buf)]
    {
      ghost var m := mem[..];
      var base := Base(pageSize, addr);
      for i := 0 to |buf|
        invariant forall a {:trigger mem[a]} :: 0 <= a < mem.Length ==>
                    mem[a] == if base <= a < base + pageSize && Offset(pageSize, addr, a) < i
                              then AndByte(m[a], buf[Offset(pageSize, addr, a)]) else m[a]
        invariant log == old(log)
      {
        var at := if addr + i < base + pageSize then addr + i else addr + i - pageSize;
        assert Offset(pageSize, addr, at) == i;
        mem[at] := AndByte(mem[at], buf[i]);
      }
      log := log + [Call(addr, buf)];
    }

    method Read(addr: nat, n: nat) returns (buf: Bytes)
      requires addr + n <= mem.Length
      ensures buf == mem[addr..addr + n]
    {
      buf := mem[addr..addr + n];
    }

    /** `spi_nor_sector_erase`: the sector that `addr` lies in. */
    method SectorErase(addr: nat)
      requires Valid() && addr < mem.Length
      modifies mem
      ensures mem[..] == Erased(sectorSize, old(mem[..]), addr)
    {
      PageFits(sectorSize, mem.Length, addr);
      ghost var m := mem[..];
      var base := Base(sectorSize, addr);
      for i := 0 to sectorSize
        invariant forall a {:trigger mem[a]} :: 0 <= a < mem.Length ==> mem[a] == if base <= a < base + i then 0xFF else m[a]
      {
        mem[base + i] := 0xFF;
      }
    }

    /** Issues one of the commands of a write: the next `n` bytes, which fit the page `addr` is in. */
    method ProgramNext(addr: nat, buf: Bytes, n: nat, ghost m0: Bytes, ghost addr0: nat, ghost buf0: Bytes, ghost calls: seq<Call>)
      requires Valid() && addr < mem.Length && n <= |buf| && addr % pageSize + n <= pageSize
      requires Progress(pageSize, m0, addr0, buf0, mem[..], addr, buf, calls)
      modifies mem, this`log
      ensures log == old(log) + [Call(addr, buf[..n])]
      ensures Progress(pageSize, m0, addr0, buf0, mem[..], addr + n, buf[n..], calls + [Call(addr, buf[..n])])
    {
      PageFits(pageSize, mem.Length, addr);
      ProgressStep(pageSize, m0, addr0, buf0, mem[..], addr, buf, calls, n);
      Program(addr, buf[..n]);
    }

    /** The last command of a write, which finishes it. */
    method ProgramLast(addr: nat, buf: Bytes, ghost m0: Bytes, ghost addr0: nat, ghost buf0: Bytes, ghost calls: seq<Call>)
      requires Valid() && addr < mem.Length && addr % pageSize + |buf| <= pageSize
      requires Progress(pageSize, m0, addr0, buf0, mem[..], addr, buf, calls)
      requires (buf0 != [] ==> buf != []) && |calls| == addr / pageSize - addr0 / pageSize
      modifies mem, this`log
      ensures mem[..] == FlatAnd(m0, addr0, buf0) && log == old(log) + [Call(addr, buf)]
      ensures WellPlaced(pageSize, addr0, calls + [Call(addr, buf)]) && Joined(calls + [Call(addr, buf)]) == buf0
      ensures |calls| + 1 == if |buf0| > 0 then PagesTouched(pageSize, addr0, |buf0|) else 1
    {
      assert buf[..|buf|] == buf && buf[|buf|..] == [];
      ProgramNext(addr, buf, |buf|, m0, addr0, buf0, calls);
      LastCall(pageSize, addr0, buf0, addr, buf, |calls|);
      assert Joined(calls + [Call(addr, buf)]) + [] == Joined(calls + [Call(addr, buf)]);
    }

    /** `spi_nor_write`: the program commands issued never cross a page, follow each other, add up to the
        buffer, and are as many as the pages it touches; together they act as one flat write. */
    method Write(addr0: nat, buf0: Bytes) returns (ghost calls: seq<Call>)
      requires Valid() && addr0 + |buf0| <= mem.Length && addr0 < mem.Length
      modifies mem, this`log
      ensures mem[..] == FlatAnd(old(mem[..]), addr0, buf0)
      ensures log == old(log) + calls
      ensures WellPlaced(pageSize, addr0, calls) && Joined(calls) == buf0
      ensures |calls| == if |buf0| > 0 then PagesTouched(pageSize, addr0, |buf0|) else 1
    {
      ghost var m0 := mem[..];
      var addr: nat, buf := addr0, buf0;
      calls := [];
      assert FlatAnd(m0, addr0, []) == m0;
      var remain := pageSize - addr % pageSize;
      if remain != 0 && |buf| > remain {
        ProgramNext(addr, buf, remain, m0, addr0, buf0, calls);
        NextPage(pageSize, addr);
        calls := calls + [Call(addr, buf[..remain])];
        addr := addr + remain;
        buf := buf[remain..];
      }
      while |buf| > pageSize
        invariant Progress(pageSize, m0, addr0, buf0, mem[..], addr, buf, calls) && log == old(log) + calls
        invariant addr % pageSize + |buf| <= pageSize || addr % pageSize == 0
        invariant buf0 != [] ==> buf != []
        invariant |calls| == addr / pageSize - addr0 / pageSize
        decreases |buf|
      {
        ProgramNext(addr, buf, pageSize, m0, addr0, buf0, calls);
        NextPage(pageSize, addr);
        calls := calls + [Call(addr, buf[..pageSize])];
        addr := addr + pageSize;
        buf := buf[pageSize..];
      }
      ProgramLast(addr, buf, m0, addr0, buf0, calls);
      calls := calls + [Call(addr, buf)];
    }

    /** Reading back a write returns the buffer exactly when every byte of it fell into the sector erased before
        or on flash that had every bit of it set; for a buffer inside that sector it always does. */
    method WriteThenRead(addr: nat, buf: Bytes, erase: bool) returns (back: Bytes)
      requires Valid() && addr + |buf| <= mem.Length && addr < mem.Length
      modifies mem, this`log
      ensures back == buf
         <==> forall i :: 0 <= i < |buf| ==>
                (erase && InSector(sectorSize, addr, addr + i)) || Covers(8, old(mem[addr + i]), buf[i])
      ensures erase && addr % sectorSize + |buf| <= sectorSize ==> back == buf
    {
      ghost var m0 := mem[..];
      if erase {
        SectorErase(addr);
      }
      ghost var m := mem[..];
      ReadBackIff(m, addr, buf);
      ghost var calls := Write(addr, buf);
      back := Read(addr, |buf|);
      forall i | 0 <= i < |buf|
        ensures Covers(8, m[addr + i], buf[i])
           <==> (erase && InSector(sectorSize, addr, addr + i)) || Covers(8, m0[addr + i], buf[i])
      {
        ErasedCoversAll(buf[i]);
      }
    }
  }

  /** The last command makes the count right. */
  lemma LastCall(page: nat, addr0: nat, buf0: Bytes, addr: nat, buf: Bytes, n: nat)
    requires page > 0 && addr % page + |buf| <= page && addr + |buf| == addr0 + |buf0|
    requires n == addr / page - addr0 / page && (buf0 != [] ==> buf != [])
    ensures n + 1 == if |buf0| > 0 then PagesTouched(page, addr0, |buf0|) else 1
  {
    if buf0 != [] {
      SamePage(page, addr, |buf|);
    }
  }
}
