/** The AES driver in ECB and CBC mode (sdk/driver/sysaes/hg_sysaes.c), in place on the caller's buffers.
    The block functions of the engine, one per key and direction, are parameters; every block operation
    that is started completes. */
module SysAes {
  import opened Bits
  import opened AesCbc

  const RET_OK := 0
  const RET_ERR := -1

  datatype Mode = Ecb | Cbc | Other
  datatype KeyLen = Bit128 | Bit192 | Bit256

  /** An address inside a buffer. */
  datatype Ptr = Ptr(buf: array<Byte>, off: nat)

  predicate Fits(p: Ptr, len: nat) {
    p.off + len <= p.buf.Length
  }

  /** Two ranges of the same length share no byte. */
  predicate Apart(p: Ptr, np: nat, q: Ptr, nq: nat) {
    p.buf != q.buf || p.off + np <= q.off || q.off + nq <= p.off
  }

  /** The `n` blocks of `s` from `off` on. */
  function BlocksIn(s: Bytes, off: nat, n: nat): (b: seq<Block>)
    requires off + BLOCK * n <= |s|
    ensures |b| == n
  {
    seq(n, i requires 0 <= i < n => s[off + BLOCK * i..off + BLOCK * (i + 1)])
  }

  function BlocksAt(p: Ptr, n: nat): (b: seq<Block>)
    requires Fits(p, BLOCK * n)
    reads p.buf
  {
    BlocksIn(p.buf[..], p.off, n)
  }

  ghost predicate SameOutside(s: Bytes, t: Bytes, off: nat, len: nat) {
    |s| == |t| && (off + len <= |s| ==> s[..off] == t[..off] && s[off + len..] == t[off + len..])
  }

  lemma SliceKept(s: Bytes, t: Bytes, off: nat, len: nat, at: nat, n: nat)
    requires SameOutside(t, s, off, len) && off + len <= |s| && at + n <= |s| && (at + n <= off || off + len <= at)
    ensures t[at..at + n] == s[at..at + n]
  {
    forall k | at <= k < at + n
      ensures t[k] == s[k]
    {
      assert k < off ==> t[k] == t[..off][k] && s[k] == s[..off][k];
      assert k >= off + len ==> t[k] == t[off + len..][k - off - len] && s[k] == s[off + len..][k - off - len];
    }
  }

  lemma SameOutsideStill(s: Bytes, t: Bytes, u: Bytes, off: nat, len: nat)
    requires SameOutside(t, s, off, len) && SameOutside(u, t, off, len)
    ensures SameOutside(u, s, off, len)
  {
  }

  /** Writing one block of a range changes that block of the range and nothing outside it. */
  lemma PutBlock(s: Bytes, off: nat, n: nat, k: nat, b: Block)
    requires k < n && off + BLOCK * n <= |s|
    ensures BlocksIn(Put(s, off + BLOCK * k, b), off, n) == BlocksIn(s, off, n)[k := b]
    ensures SameOutside(Put(s, off + BLOCK * k, b), s, off, BLOCK * n)
  {
    var t := Put(s, off + BLOCK * k, b);
    forall i | 0 <= i < n
      ensures BlocksIn(t, off, n)[i] == BlocksIn(s, off, n)[k := b][i]
    {
      forall j | 0 <= j < BLOCK
        ensures BlocksIn(t, off, n)[i][j] == BlocksIn(s, off, n)[k := b][i][j]
      {
        ByteOfBlock(s, off, n, i, j);
        ByteOfBlock(t, off, n, i, j);
      }
    }
  }

  /** Changing one block and nothing else is writing that block. */
  lemma OneBlock(s: Bytes, t: Bytes, off: nat, b: Block)
    requires off + BLOCK <= |s| && SameOutside(t, s, off, BLOCK) && BlocksIn(t, off, 1) == [b]
    ensures t == Put(s, off, b)
  {
    assert BlocksIn(t, off, 1)[0] == t[off..off + BLOCK] == b;
    forall k | 0 <= k < |s|
      ensures t[k] == Put(s, off, b)[k]
    {
      if off <= k < off + BLOCK {
        assert t[k] == t[off..off + BLOCK][k - off];
      }
    }
  }

  lemma WriteBack(s: Bytes, off: nat)
    requires off + BLOCK <= |s|
    ensures Put(s, off, s[off..off + BLOCK]) == s
  {
  }

  lemma PutApart(s: Bytes, at: nat, b: Bytes, off: nat, n: nat)
    requires at + |b| <= |s| && off + BLOCK * n <= |s| && (at + |b| <= off || off + BLOCK * n <= at)
    ensures BlocksIn(Put(s, at, b), off, n) == BlocksIn(s, off, n)
  {
    forall i | 0 <= i < n
      ensures BlocksIn(Put(s, at, b), off, n)[i] == BlocksIn(s, off, n)[i]
    {
      forall j | 0 <= j < BLOCK
        ensures BlocksIn(Put(s, at, b), off, n)[i][j] == BlocksIn(s, off, n)[i][j]
      {
        ByteOfBlock(s, off, n, i, j);
        ByteOfBlock(Put(s, at, b), off, n, i, j);
      }
    }
  }

  function MapBlocks(f: BlockFn, b: seq<Block>): (r: seq<Block>) {
    seq(|b|, i requires 0 <= i < |b| => f(b[i]))
  }

  class Para {
    const mode: Mode
    const keyLen: KeyLen
    const key: Ptr
    const iv: Ptr
    var src: Ptr
    var dest: Ptr
    var blockNum: nat

    constructor (mode: Mode, keyLen: KeyLen, key: Ptr, iv: Ptr, src: Ptr, dest: Ptr, blockNum: nat)
      ensures this.mode == mode && this.keyLen == keyLen && this.key == key && this.iv == iv
      ensures this.src == src && this.dest == dest && this.blockNum == blockNum
    {
      this.mode, this.keyLen, this.key, this.iv := mode, keyLen, key, iv;
      this.src, this.dest, this.blockNum := src, dest, blockNum;
    }
  }

  /** `hw_memcpy` between ranges that share no byte. */
  method Memcpy(dst: Ptr, src: Ptr, n: nat)
    requires Fits(dst, n) && Fits(src, n) && Apart(dst, n, src, n)
    modifies dst.buf
    ensures dst.buf[..] == Put(old(dst.buf[..]), dst.off, old(src.buf[src.off..src.off + n]))
  {
    ghost var was, bytes := dst.buf[..], src.buf[src.off..src.off + n];
    for i := 0 to n
      invariant forall k {:trigger dst.buf[k]} :: 0 <= k < dst.buf.Length ==>
                  dst.buf[k] == if dst.off <= k < dst.off + i then bytes[k - dst.off] else was[k]
      invariant src.buf[src.off..src.off + n] == bytes
    {
      assert src.buf[src.off + i] == src.buf[src.off..src.off + n][i];
      dst.buf[dst.off + i] := src.buf[src.off + i];
    }
  }

  class Sysaes {
    const enc: Bytes -> BlockFn
    const dec: Bytes -> BlockFn
    var key: Bytes

    constructor (enc: Bytes -> BlockFn, dec: Bytes -> BlockFn)
      ensures this.enc == enc && this.dec == dec
    {
      this.enc, this.dec, key := enc, dec, [];
    }

    /** What the engine does to one block: nothing at all unless the key is a 256-bit one. */
    function BlockFnOf(keyLen: KeyLen, key: Bytes, encrypt: bool): (f: BlockFn) {
      if keyLen != Bit256 then (b: Block) => b else if encrypt then enc(key) else dec(key)
    }

    /** Block by block, what encryption and decryption make of their input in either mode: with a 256-bit key the
        block function is applied, with any other the blocks are only chained. */
    lemma CipherBlock(keyLen: KeyLen, k: Bytes, iv: Block, plain: seq<Block>, i: nat)
      requires i < |plain|
      ensures var c := CbcEncrypt(BlockFnOf(keyLen, k, true), iv, plain);
              var x := XorBlock(if i == 0 then iv else c[i - 1], plain[i]);
              c[i] == if keyLen == Bit256 then enc(k)(x) else x
      ensures MapBlocks(enc(k), plain)[i] == enc(k)(plain[i])
    {
      EncryptAt(BlockFnOf(keyLen, k, true), iv, plain, i);
    }

    lemma PlainBlock(keyLen: KeyLen, k: Bytes, iv: Block, cipher: seq<Block>, i: nat)
      requires i < |cipher|
      ensures var y := if keyLen == Bit256 then dec(k)(cipher[i]) else cipher[i];
              CbcDecrypt(BlockFnOf(keyLen, k, false), iv, cipher)[i] == XorBlock(y, if i == 0 then iv else cipher[i - 1])
      ensures MapBlocks(dec(k), cipher)[i] == dec(k)(cipher[i])
    {
      DecryptAt(BlockFnOf(keyLen, k, false), iv, cipher, i);
    }

    method FillKey(para: Para)
      requires Fits(para.key, 32)
      modifies this
      ensures key == para.key.buf[para.key.off..para.key.off + 32]
    {
      key := para.key.buf[para.key.off..para.key.off + 32];
    }

    /** The engine at work on block `k` of `n`. */
    method EngineBlock(src: Ptr, dst: Ptr, n: nat, k: nat, f: BlockFn)
      requires Fits(src, BLOCK * n) && Fits(dst, BLOCK * n) && (src == dst || Apart(src, BLOCK * n, dst, BLOCK * n))
      requires k < n
      modifies dst.buf
      ensures SameOutside(dst.buf[..], old(dst.buf[..]), dst.off, BLOCK * n)
      ensures BlocksAt(dst, n) == old(BlocksAt(dst, n))[k := f(old(BlocksAt(src, n)[k]))]
      ensures src != dst ==> BlocksAt(src, n) == old(BlocksAt(src, n))
    {
      var block: Block := src.buf[src.off + BLOCK * k..src.off + BLOCK * (k + 1)];
      assert block == BlocksAt(src, n)[k];
      ghost var was, srcBlocks := dst.buf[..], BlocksAt(src, n);
      ghost var now := Put(was, dst.off + BLOCK * k, f(block));
      if src.buf == dst.buf && src != dst {
        PutApart(was, dst.off + BLOCK * k, f(block), src.off, n);
        assert BlocksIn(now, src.off, n) == srcBlocks;
      }
      PutBlockAt(dst, n, k, f(block), now, BlocksAt(dst, n)[k := f(block)]);
      assert src.buf != dst.buf ==> src.buf[..] == old(src.buf[..]);
    }

    /** One block of a range is replaced. */
    method PutBlockAt(dst: Ptr, n: nat, k: nat, b: Block, ghost now: Bytes, ghost blocks: seq<Block>)
      requires Fits(dst, BLOCK * n) && k < n
      requires now == Put(dst.buf[..], dst.off + BLOCK * k, b) && blocks == BlocksAt(dst, n)[k := b]
      modifies dst.buf
      ensures dst.buf[..] == now && SameOutside(now, old(dst.buf[..]), dst.off, BLOCK * n)
      ensures BlocksAt(dst, n) == blocks
    {
      PutBlock(dst.buf[..], dst.off, n, k, b);
      WriteBlock(dst.buf, dst.off + BLOCK * k, b, now);
    }

    /** The engine at work on `n` blocks from `src` to `dst`, one by one. */
    method RunEngine(src: Ptr, dst: Ptr, n: nat, f: BlockFn)
      requires Fits(src, BLOCK * n) && Fits(dst, BLOCK * n) && (src == dst || Apart(src, BLOCK * n, dst, BLOCK * n))
      modifies dst.buf
      ensures SameOutside(dst.buf[..], old(dst.buf[..]), dst.off, BLOCK * n)
      ensures BlocksAt(dst, n) == MapBlocks(f, old(BlocksAt(src, n)))
      ensures forall i :: 0 <= i < n ==> BlocksAt(dst, n)[i] == f(old(BlocksAt(src, n))[i])
    {
      ghost var plain, was := BlocksAt(src, n), dst.buf[..];
      for k := 0 to n
        invariant SameOutside(dst.buf[..], was, dst.off, BLOCK * n)
        invariant forall i :: 0 <= i < k ==> BlocksAt(dst, n)[i] == f(plain[i])
        invariant forall i :: k <= i < n ==> BlocksAt(src, n)[i] == plain[i]
      {
        EngineBlock(src, dst, n, k, f);
      }
    }

    /** `hg_sysaes_hdl`. */
    method Hdl(para: Para, encrypt: bool) returns (ret: int)
      requires var n := BLOCK * para.blockNum;
               Fits(para.src, n) && Fits(para.dest, n) && (para.src == para.dest || Apart(para.src, n, para.dest, n))
      modifies para.dest.buf
      ensures ret == if para.keyLen == Bit256 then RET_OK else RET_ERR
      ensures ret == RET_ERR ==> para.dest.buf[..] == old(para.dest.buf[..])
      ensures SameOutside(para.dest.buf[..], old(para.dest.buf[..]), para.dest.off, BLOCK * para.blockNum)
      ensures ret == RET_OK ==>
                BlocksAt(para.dest, para.blockNum)
                == MapBlocks(if encrypt then enc(key) else dec(key), old(BlocksAt(para.src, para.blockNum)))
      ensures ret == RET_OK ==>
                forall i :: 0 <= i < para.blockNum ==>
                  var b := old(BlocksAt(para.src, para.blockNum))[i];
                  BlocksAt(para.dest, para.blockNum)[i] == if encrypt then enc(key)(b) else dec(key)(b)
    {
      if para.keyLen != Bit256 {
        return RET_ERR;
      }
      RunEngine(para.src, para.dest, para.blockNum, if encrypt then enc(key) else dec(key));
      return RET_OK;
    }

    /** `hg_sysaes_hdl` as the CBC loops use it: one block, in place, the result ignored. */
    method HdlBlock(para: Para, encrypt: bool)
      requires para.blockNum == 1 && para.src == para.dest && Fits(para.dest, BLOCK)
      modifies para.dest.buf
      ensures para.dest.buf[..] == Put(old(para.dest.buf[..]), para.dest.off,
                BlockFnOf(para.keyLen, key, encrypt)(old(para.dest.buf[para.dest.off..para.dest.off + BLOCK])))
    {
      ghost var was, off := para.dest.buf[..], para.dest.off;
      ghost var b: Block := para.dest.buf[off..off + BLOCK];
      assert BlocksAt(para.src, 1)[0] == b;
      var ret := Hdl(para, encrypt);
      if ret == RET_OK {
        OneBlock(was, para.dest.buf[..], off, BlockFnOf(para.keyLen, key, encrypt)(b));
      } else {
        WriteBack(was, off);
      }
    }

    /** The engine stores one block. */
    method WriteBlock(buf: array<Byte>, at: nat, b: Block, ghost now: Bytes)
      requires at + BLOCK <= buf.Length && now == Put(buf[..], at, b)
      modifies buf
      ensures buf[..] == now
    {
      ghost var was := buf[..];
      for j := 0 to BLOCK
        invariant forall k {:trigger buf[k]} :: 0 <= k < buf.Length ==> buf[k] == if at <= k < at + j then b[k - at] else was[k]
      {
        buf[at + j] := b[j];
      }
    }

    /** `dst[j] ^= src[j]` over one block. */
    method XorInto(dst: Ptr, src: Ptr)
      requires Fits(dst, BLOCK) && Fits(src, BLOCK) && dst.buf != src.buf
      modifies dst.buf
      ensures dst.buf[..] == Put(old(dst.buf[..]), dst.off,
                                 XorBlock(old(dst.buf[dst.off..dst.off + BLOCK]), src.buf[src.off..src.off + BLOCK]))
    {
      ghost var was, a, b := dst.buf[..], dst.buf[dst.off..dst.off + BLOCK], src.buf[src.off..src.off + BLOCK];
      ghost var x := XorBlock(a, b);
      for j := 0 to BLOCK
        invariant forall k {:trigger dst.buf[k]} :: 0 <= k < dst.buf.Length ==>
                    dst.buf[k] == if dst.off <= k < dst.off + j then x[k - dst.off] else was[k]
      {
        assert a[j] == was[dst.off + j] && b[j] == src.buf[src.off + j];
        dst.buf[dst.off + j] := XorByte(dst.buf[dst.off + j], src.buf[src.off + j]);
      }
    }

    /** One round of the encryption loop: `cbc` and the block at `pos` become the next cipher block. */
    method EncryptRound(para: Para, cbc: array<Byte>, pos: Ptr)
      requires cbc.Length == BLOCK && Fits(pos, BLOCK) && pos.buf != cbc
      requires para.src == para.dest == Ptr(cbc, 0) && para.blockNum == 1
      modifies cbc, pos.buf
      ensures var y := BlockFnOf(para.keyLen, key, true)(XorBlock(old(cbc[..]), old(pos.buf[pos.off..pos.off + BLOCK])));
              cbc[..] == y && pos.buf[..] == Put(old(pos.buf[..]), pos.off, y)
    {
      ghost var x := XorBlock(cbc[..], pos.buf[pos.off..pos.off + BLOCK]);
      assert cbc[0..BLOCK] == cbc[..];
      XorInto(Ptr(cbc, 0), pos);
      assert cbc[0..BLOCK] == cbc[..] == x;
      HdlBlock(para, true);
      assert cbc[0..BLOCK] == cbc[..];
      Memcpy(pos, Ptr(cbc, 0), BLOCK);
    }

    /** One round of the decryption loop: the block at `pos` is opened, `cbc` becomes the cipher block it held. */
    method DecryptRound(para: Para, cbc: array<Byte>, tmp: array<Byte>, pos: Ptr)
      requires cbc.Length == BLOCK == tmp.Length && Fits(pos, BLOCK) && pos.buf != cbc && pos.buf != tmp && cbc != tmp
      requires para.blockNum == 1
      modifies para`src, para`dest, cbc, tmp, pos.buf
      ensures var c: Block := old(pos.buf[pos.off..pos.off + BLOCK]);
              cbc[..] == c && pos.buf[..] == Put(old(pos.buf[..]), pos.off,
                                                 XorBlock(BlockFnOf(para.keyLen, key, false)(c), old(cbc[..])))
    {
      ghost var c: Block := pos.buf[pos.off..pos.off + BLOCK];
      ghost var was, y := pos.buf[..], BlockFnOf(para.keyLen, key, false)(c);
      para.src := pos;
      para.dest := pos;
      Memcpy(Ptr(tmp, 0), pos, BLOCK);
      assert tmp[0..BLOCK] == tmp[..] == c;
      HdlBlock(para, false);
      assert pos.buf[pos.off..pos.off + BLOCK] == y;
      assert cbc[0..BLOCK] == cbc[..];
      XorInto(pos, Ptr(cbc, 0));
      PutTwice(was, pos.off, y, XorBlock(y, cbc[..]));
      Memcpy(Ptr(cbc, 0), Ptr(tmp, 0), BLOCK);
    }

    /** The same round, seen from the destination as a sequence of blocks. */
    method EncryptRoundAt(para: Para, cbc: array<Byte>, dest: Ptr, n: nat, i: nat)
      requires cbc.Length == BLOCK && i < n && Fits(dest, BLOCK * n) && dest.buf != cbc
      requires para.src == para.dest == Ptr(cbc, 0) && para.blockNum == 1
      modifies cbc, dest.buf
      ensures cbc[..] == BlockFnOf(para.keyLen, key, true)(XorBlock(old(cbc[..]), old(BlocksAt(dest, n)[i])))
      ensures BlocksAt(dest, n) == old(BlocksAt(dest, n))[i := cbc[..]]
      ensures SameOutside(dest.buf[..], old(dest.buf[..]), dest.off, BLOCK * n)
    {
      ghost var before, at := dest.buf[..], dest.off + BLOCK * i;
      assert dest.buf[at..at + BLOCK] == BlocksAt(dest, n)[i];
      EncryptRound(para, cbc, Ptr(dest.buf, dest.off + BLOCK * i));
      PutBlock(before, dest.off, n, i, cbc[..]);
    }

    method DecryptRoundAt(para: Para, cbc: array<Byte>, tmp: array<Byte>, dest: Ptr, n: nat, i: nat)
      requires cbc.Length == BLOCK == tmp.Length && cbc != tmp && i < n
      requires Fits(dest, BLOCK * n) && dest.buf != cbc && dest.buf != tmp && para.blockNum == 1
      modifies para`src, para`dest, cbc, tmp, dest.buf
      ensures cbc[..] == old(BlocksAt(dest, n)[i])
      ensures BlocksAt(dest, n)
           == old(BlocksAt(dest, n))[i := XorBlock(BlockFnOf(para.keyLen, key, false)(cbc[..]), old(cbc[..]))]
      ensures SameOutside(dest.buf[..], old(dest.buf[..]), dest.off, BLOCK * n)
    {
      ghost var before, at, ch := dest.buf[..], dest.off + BLOCK * i, cbc[..];
      assert dest.buf[at..at + BLOCK] == BlocksAt(dest, n)[i];
      DecryptRound(para, cbc, tmp, Ptr(dest.buf, dest.off + BLOCK * i));
      PutBlock(before, dest.off, n, i, XorBlock(BlockFnOf(para.keyLen, key, false)(cbc[..]), ch));
    }

    /** The encryption loop. */
    method EncryptBlocks(para: Para, cbc: array<Byte>, dest: Ptr, n: nat, ghost iv: Block)
      requires cbc.Length == BLOCK && cbc[..] == iv && Fits(dest, BLOCK * n) && dest.buf != cbc
      requires para.src == para.dest == Ptr(cbc, 0) && para.blockNum == 1
      modifies cbc, dest.buf
      ensures SameOutside(dest.buf[..], old(dest.buf[..]), dest.off, BLOCK * n)
      ensures BlocksAt(dest, n) == CbcEncrypt(BlockFnOf(para.keyLen, key, true), iv, old(BlocksAt(dest, n)))
    {
      ghost var f, plain, was := BlockFnOf(para.keyLen, key, true), BlocksAt(dest, n), dest.buf[..];
      HalfStart(f, iv, plain);
      for i := 0 to n
        invariant SameOutside(dest.buf[..], was, dest.off, BLOCK * n)
        invariant BlocksAt(dest, n) == HalfEncrypted(f, iv, plain, i)
        invariant cbc[..] == Chain(iv, CbcEncrypt(f, iv, plain[..i]))
      {
        HalfEncryptedStep(f, iv, plain, i);
        EncryptRoundAt(para, cbc, dest, n, i);
      }
      HalfEnd(f, iv, plain);
    }

    /** The decryption loop. */
    method DecryptBlocks(para: Para, cbc: array<Byte>, tmp: array<Byte>, dest: Ptr, n: nat, ghost iv: Block)
      requires cbc.Length == BLOCK == tmp.Length && cbc != tmp && cbc[..] == iv
      requires Fits(dest, BLOCK * n) && dest.buf != cbc && dest.buf != tmp && para.blockNum == 1
      modifies para`src, para`dest, cbc, tmp, dest.buf
      ensures SameOutside(dest.buf[..], old(dest.buf[..]), dest.off, BLOCK * n)
      ensures BlocksAt(dest, n) == CbcDecrypt(BlockFnOf(para.keyLen, key, false), iv, old(BlocksAt(dest, n)))
    {
      ghost var f, cipher, was := BlockFnOf(para.keyLen, key, false), BlocksAt(dest, n), dest.buf[..];
      HalfStart(f, iv, cipher);
      for i := 0 to n
        invariant SameOutside(dest.buf[..], was, dest.off, BLOCK * n)
        invariant BlocksAt(dest, n) == HalfDecrypted(f, iv, cipher, i)
        invariant cbc[..] == Chain(iv, cipher[..i])
      {
        HalfDecryptedStep(f, iv, cipher, i);
        DecryptRoundAt(para, cbc, tmp, dest, n, i);
      }
      HalfEnd(f, iv, cipher);
    }

    /** `hg_sysaes_encrypt`. In CBC mode the destination ends up with the chained encryption of what the
        source held, under the block function the key length selects: a key that is not a 256-bit one makes
        every block operation fail, which the driver ignores, so the data is only chained. */
    method Encrypt(para: Para) returns (ret: int)
      requires Fits(para.key, 32) && Fits(para.iv, BLOCK)
      requires var n := BLOCK * para.blockNum;
               Fits(para.src, n) && Fits(para.dest, n) && (para.src == para.dest || Apart(para.src, n, para.dest, n))
      modifies this, para, para.dest.buf
      ensures para.src == old(para.src) && para.dest == old(para.dest) && para.blockNum == old(para.blockNum)
      ensures SameOutside(para.dest.buf[..], old(para.dest.buf[..]), para.dest.off, BLOCK * para.blockNum)
      ensures ret == if para.mode.Cbc? || (para.mode.Ecb? && para.keyLen == Bit256) then RET_OK else RET_ERR
      ensures ret == RET_ERR ==> para.dest.buf[..] == old(para.dest.buf[..])
      ensures para.mode.Ecb? && ret == RET_OK ==>
                BlocksAt(para.dest, para.blockNum)
                == MapBlocks(enc(old(para.key.buf[para.key.off..para.key.off + 32])), old(BlocksAt(para.src, para.blockNum)))
      ensures para.mode.Cbc? ==>
                BlocksAt(para.dest, para.blockNum)
                == CbcEncrypt(BlockFnOf(para.keyLen, old(para.key.buf[para.key.off..para.key.off + 32]), true),
                              old(para.iv.buf[para.iv.off..para.iv.off + BLOCK]), old(BlocksAt(para.src, para.blockNum)))
    {
      if para.mode.Other? {
        return RET_ERR;
      }
      FillKey(para);
      if para.mode.Ecb? {
        ret := Hdl(para, true);
        return;
      }
      var src, dest, blocks := para.src, para.dest, para.blockNum;
      ghost var iv: Block := para.iv.buf[para.iv.off..para.iv.off + BLOCK];
      var cbc := new Byte[BLOCK];
      Memcpy(Ptr(cbc, 0), para.iv, BLOCK);
      assert cbc[..] == iv;
      CopyOver(dest, src, blocks);
      para.src, para.dest, para.blockNum := Ptr(cbc, 0), Ptr(cbc, 0), 1;
      EncryptBlocks(para, cbc, dest, blocks, iv);
      para.src, para.dest, para.blockNum := src, dest, blocks;
      return RET_OK;
    }

    /** `hg_sysaes_decrypt`. The iv is read after the source has been copied over the destination, so it must
        not lie in the destination unless the two are the same. */
    method Decrypt(para: Para) returns (ret: int)
      requires Fits(para.key, 32) && Fits(para.iv, BLOCK)
      requires var n := BLOCK * para.blockNum;
               Fits(para.src, n) && Fits(para.dest, n)
               && (para.src == para.dest || (Apart(para.src, n, para.dest, n) && Apart(para.iv, BLOCK, para.dest, n)))
      modifies this, para, para.dest.buf
      ensures para.src == old(para.src) && para.dest == old(para.dest) && para.blockNum == old(para.blockNum)
      ensures SameOutside(para.dest.buf[..], old(para.dest.buf[..]), para.dest.off, BLOCK * para.blockNum)
      ensures ret == if para.mode.Cbc? || (para.mode.Ecb? && para.keyLen == Bit256) then RET_OK else RET_ERR
      ensures ret == RET_ERR ==> para.dest.buf[..] == old(para.dest.buf[..])
      ensures para.mode.Ecb? && ret == RET_OK ==>
                BlocksAt(para.dest, para.blockNum)
                == MapBlocks(dec(old(para.key.buf[para.key.off..para.key.off + 32])), old(BlocksAt(para.src, para.blockNum)))
      ensures para.mode.Cbc? ==>
                BlocksAt(para.dest, para.blockNum)
                == CbcDecrypt(BlockFnOf(para.keyLen, old(para.key.buf[para.key.off..para.key.off + 32]), false),
                              old(para.iv.buf[para.iv.off..para.iv.off + BLOCK]), old(BlocksAt(para.src, para.blockNum)))
    {
      if para.mode.Other? {
        return RET_ERR;
      }
      FillKey(para);
      if para.mode.Ecb? {
        ret := Hdl(para, false);
        return;
      }
      DecryptChained(para, para.iv.buf[para.iv.off..para.iv.off + BLOCK]);
      return RET_OK;
    }

    method DecryptChained(para: Para, ghost iv: Block)
      requires Fits(para.iv, BLOCK) && para.iv.buf[para.iv.off..para.iv.off + BLOCK] == iv
      requires var n := BLOCK * para.blockNum;
               Fits(para.src, n) && Fits(para.dest, n)
               && (para.src == para.dest || (Apart(para.src, n, para.dest, n) && Apart(para.iv, BLOCK, para.dest, n)))
      modifies para, para.dest.buf
      ensures para.src == old(para.src) && para.dest == old(para.dest) && para.blockNum == old(para.blockNum)
      ensures SameOutside(para.dest.buf[..], old(para.dest.buf[..]), para.dest.off, BLOCK * para.blockNum)
      ensures BlocksAt(para.dest, para.blockNum)
           == CbcDecrypt(BlockFnOf(para.keyLen, key, false), iv, old(BlocksAt(para.src, para.blockNum)))
    {
      var src, dest, blocks := para.src, para.dest, para.blockNum;
      var cbc := new Byte[BLOCK];
      var tmp := new Byte[BLOCK];
      CopyOver(dest, src, blocks);
      assert para.iv.buf[para.iv.off..para.iv.off + BLOCK] == iv;
      Memcpy(Ptr(cbc, 0), para.iv, BLOCK);
      assert cbc[..] == iv;
      para.blockNum := 1;
      DecryptBlocks(para, cbc, tmp, dest, blocks, iv);
      para.src, para.dest, para.blockNum := src, dest, blocks;
    }

    /** In place, decrypting what has just been encrypted under the same key and iv gives back the plaintext,
        and with it the whole buffer. */
    method EncryptThenDecrypt(para: Para) returns (ret: int)
      requires Fits(para.key, 32) && Fits(para.iv, BLOCK) && para.mode.Cbc? && para.src == para.dest
      requires var n := BLOCK * para.blockNum;
               Fits(para.dest, n) && Apart(para.key, 32, para.dest, n) && Apart(para.iv, BLOCK, para.dest, n)
      requires forall k {:trigger dec(k)} :: Inverts(dec(k), enc(k))
      modifies this, para, para.dest.buf
      ensures ret == RET_OK && para.dest == old(para.dest) && para.blockNum == old(para.blockNum)
      ensures BlocksAt(para.dest, para.blockNum) == old(BlocksAt(para.src, para.blockNum))
      ensures SameOutside(para.dest.buf[..], old(para.dest.buf[..]), para.dest.off, BLOCK * para.blockNum)
    {
      ghost var n, was, plain := BLOCK * para.blockNum, para.dest.buf[..], BlocksAt(para.src, para.blockNum);
      ghost var k, iv: Block := para.key.buf[para.key.off..para.key.off + 32], para.iv.buf[para.iv.off..para.iv.off + BLOCK];
      RoundTripWith(para.keyLen, k, iv, plain);
      ghost var between := EncryptApart(para, k, iv, CbcEncrypt(BlockFnOf(para.keyLen, k, true), iv, plain));
      ret := Decrypt(para);
      SameOutsideStill(was, between, para.dest.buf[..], para.dest.off, n);
    }

    /** Encryption in place leaves a key and an iv outside the blocks as they were. */
    method EncryptApart(para: Para, ghost k: Bytes, ghost iv: Block, ghost cipher: seq<Block>) returns (ghost after: Bytes)
      requires Fits(para.key, 32) && Fits(para.iv, BLOCK) && para.mode.Cbc? && para.src == para.dest
      requires var n := BLOCK * para.blockNum;
               Fits(para.dest, n) && Apart(para.key, 32, para.dest, n) && Apart(para.iv, BLOCK, para.dest, n)
      requires para.key.buf[para.key.off..para.key.off + 32] == k && para.iv.buf[para.iv.off..para.iv.off + BLOCK] == iv
      requires cipher == CbcEncrypt(BlockFnOf(para.keyLen, k, true), iv, BlocksAt(para.src, para.blockNum))
      modifies this, para, para.dest.buf
      ensures para.src == old(para.src) && para.dest == old(para.dest) && para.blockNum == old(para.blockNum)
      ensures para.dest.buf[..] == after && SameOutside(after, old(para.dest.buf[..]), para.dest.off, BLOCK * para.blockNum)
      ensures para.key.buf[para.key.off..para.key.off + 32] == k && para.iv.buf[para.iv.off..para.iv.off + BLOCK] == iv
      ensures BlocksAt(para.dest, para.blockNum) == cipher
    {
      ghost var n, was := BLOCK * para.blockNum, para.dest.buf[..];
      var ret := Encrypt(para);
      after := para.dest.buf[..];
      if para.key.buf == para.dest.buf {
        SliceKept(was, after, para.dest.off, n, para.key.off, 32);
      }
      if para.iv.buf == para.dest.buf {
        SliceKept(was, after, para.dest.off, n, para.iv.off, BLOCK);
      }
    }

    /** Whatever the key length, the two block functions undo each other, and so do the two chainings. */
    lemma RoundTripWith(keyLen: KeyLen, key: Bytes, iv: Block, plain: seq<Block>)
      requires Inverts(dec(key), enc(key))
      ensures CbcDecrypt(BlockFnOf(keyLen, key, false), iv, CbcEncrypt(BlockFnOf(keyLen, key, true), iv, plain)) == plain
    {
      RoundTrip(BlockFnOf(keyLen, key, true), BlockFnOf(keyLen, key, false), iv, plain);
    }

    /** The copy both directions begin with when the buffers differ. */
    method CopyOver(dest: Ptr, src: Ptr, n: nat)
      requires Fits(src, BLOCK * n) && Fits(dest, BLOCK * n) && (src == dest || Apart(src, BLOCK * n, dest, BLOCK * n))
      modifies dest.buf
      ensures SameOutside(dest.buf[..], old(dest.buf[..]), dest.off, BLOCK * n)
      ensures src == dest ==> dest.buf[..] == old(dest.buf[..])
      ensures BlocksAt(dest, n) == old(BlocksAt(src, n))
    {
      if src != dest {
        ghost var was, from := dest.buf[..], src.buf[..];
        Memcpy(dest, src, BLOCK * n);
        assert from[src.off..src.off + BLOCK * n] == old(src.buf[src.off..src.off + BLOCK * n]);
        CopiedBlocks(was, dest.off, from, src.off, n);
      }
    }
  }

  /** The destination after `i` rounds of the encryption loop, and of the decryption loop. */
  function HalfEncrypted(f: BlockFn, iv: Block, plain: seq<Block>, i: nat): (r: seq<Block>)
    requires i <= |plain|
    ensures |r| == |plain|
  {
    CbcEncrypt(f, iv, plain[..i]) + plain[i..]
  }

  function HalfDecrypted(f: BlockFn, iv: Block, cipher: seq<Block>, i: nat): (r: seq<Block>)
    requires i <= |cipher|
    ensures |r| == |cipher|
  {
    CbcDecrypt(f, iv, cipher[..i]) + cipher[i..]
  }

  lemma HalfStart(f: BlockFn, iv: Block, b: seq<Block>)
    ensures HalfEncrypted(f, iv, b, 0) == b == HalfDecrypted(f, iv, b, 0)
    ensures Chain(iv, CbcEncrypt(f, iv, b[..0])) == iv == Chain(iv, b[..0])
  {
  }

  lemma HalfEnd(f: BlockFn, iv: Block, b: seq<Block>)
    ensures HalfEncrypted(f, iv, b, |b|) == CbcEncrypt(f, iv, b)
    ensures HalfDecrypted(f, iv, b, |b|) == CbcDecrypt(f, iv, b)
  {
    assert b[..|b|] == b;
  }

  lemma HalfEncryptedStep(f: BlockFn, iv: Block, plain: seq<Block>, i: nat)
    requires i < |plain|
    ensures HalfEncrypted(f, iv, plain, i)[i] == plain[i]
    ensures var c := CbcEncrypt(f, iv, plain[..i]);
            var y := f(XorBlock(Chain(iv, c), plain[i]));
            && HalfEncrypted(f, iv, plain, i + 1) == HalfEncrypted(f, iv, plain, i)[i := y]
            && Chain(iv, CbcEncrypt(f, iv, plain[..i + 1])) == y
  {
    assert plain[..i + 1][..i] == plain[..i];
  }

  lemma HalfDecryptedStep(f: BlockFn, iv: Block, cipher: seq<Block>, i: nat)
    requires i < |cipher|
    ensures HalfDecrypted(f, iv, cipher, i)[i] == cipher[i] == Chain(iv, cipher[..i + 1])
    ensures HalfDecrypted(f, iv, cipher, i + 1)
         == HalfDecrypted(f, iv, cipher, i)[i := XorBlock(f(cipher[i]), Chain(iv, cipher[..i]))]
  {
    assert cipher[..i + 1][..i] == cipher[..i];
  }

  lemma PutTwice(s: Bytes, at: nat, a: Bytes, b: Bytes)
    requires at + |a| <= |s| && |a| == |b|
    ensures Put(Put(s, at, a), at, b) == Put(s, at, b)
  {
  }

  /** A copied range has the blocks of its source. */
  lemma CopiedBlocks(s: Bytes, off: nat, t: Bytes, from: nat, n: nat)
    requires off + BLOCK * n <= |s| && from + BLOCK * n <= |t|
    ensures var r := Put(s, off, t[from..from + BLOCK * n]);
            BlocksIn(r, off, n) == BlocksIn(t, from, n) && SameOutside(r, s, off, BLOCK * n)
  {
    var r := Put(s, off, t[from..from + BLOCK * n]);
    forall i | 0 <= i < n
      ensures BlocksIn(r, off, n)[i] == BlocksIn(t, from, n)[i]
    {
      forall j | 0 <= j < BLOCK
        ensures BlocksIn(r, off, n)[i][j] == BlocksIn(t, from, n)[i][j]
      {
        ByteOfBlock(r, off, n, i, j);
        ByteOfBlock(t, from, n, i, j);
      }
    }
  }

  lemma ByteOfBlock(s: Bytes, off: nat, n: nat, i: nat, j: nat)
    requires off + BLOCK * n <= |s| && i < n && j < BLOCK
    ensures off + BLOCK * i + j < off + BLOCK * n
    ensures BlocksIn(s, off, n)[i][j] == s[off + BLOCK * i + j]
  {
  }
}
