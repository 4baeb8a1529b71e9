/** Cipher block chaining, section 6.2 of NIST SP 800-38A, over sequences of 16-byte blocks. */
module AesCbc {
  import opened Bits

  type Bytes = seq<Byte>

  const BLOCK := 16

  type Block = b: Bytes | |b| == 16 witness [0, 0, 0, 0, 0, 0, 0, 0, 0, 0, 0, 0, 0, 0, 0, 0]

  type BlockFn = Block -> Block

  function XorBlock(a: Block, b: Block): (r: Block) {
    seq(16, i requires 0 <= i < 16 => XorByte(a[i], b[i]))
  }

  lemma XorBlockTwice(a: Block, b: Block)
    ensures XorBlock(XorBlock(a, b), b) == a
  {
    forall i | 0 <= i < 16
      ensures XorBlock(XorBlock(a, b), b)[i] == a[i]
    {
      XorByteTwice(a[i], b[i]);
    }
  }

  lemma XorBlockSymmetric(a: Block, b: Block)
    ensures XorBlock(a, b) == XorBlock(b, a)
  {
    forall i | 0 <= i < 16
      ensures XorByte(a[i], b[i]) == XorByte(b[i], a[i])
    {
      XorBitsSymmetric(8, a[i], b[i]);
    }
  }

  /** Bit by bit: in byte `k` of the exclusive or, bit `i` is set exactly when the two bits differ. */
  lemma XorBlockAt(a: Block, b: Block, k: nat, i: nat)
    requires k < BLOCK && i < 8
    ensures XorBlock(a, b)[k] / Pow2(i) % 2 == 1 <==> a[k] / Pow2(i) % 2 != b[k] / Pow2(i) % 2
  {
    XorByteAt(a[k], b[k], i);
  }

  ghost predicate Inverts(d: BlockFn, e: BlockFn) {
    forall b: Block {:trigger e(b)} :: d(e(b)) == b
  }

  /** The block chained into the next position: the iv, or the cipher block before. */
  function Chain(iv: Block, c: seq<Block>): (b: Block) {
    if c == [] then iv else c[|c| - 1]
  }

  function CbcEncrypt(e: BlockFn, iv: Block, p: seq<Block>): (c: seq<Block>)
    ensures |c| == |p|
  {
    if p == [] then []
    else
      var c := CbcEncrypt(e, iv, p[..|p| - 1]);
      c + [e(XorBlock(Chain(iv, c), p[|p| - 1]))]
  }

  function CbcDecrypt(d: BlockFn, iv: Block, c: seq<Block>): (p: seq<Block>)
    ensures |p| == |c|
  {
    if c == [] then []
    else
      var c' := c[..|c| - 1];
      CbcDecrypt(d, iv, c') + [XorBlock(d(c[|c| - 1]), Chain(iv, c'))]
  }

  /** Cipher blocks do not depend on later plain blocks. */
  lemma {:induction false} EncryptPrefix(e: BlockFn, iv: Block, p: seq<Block>, k: nat)
    requires k <= |p|
    ensures CbcEncrypt(e, iv, p)[..k] == CbcEncrypt(e, iv, p[..k])
  {
    if k < |p| {
      var p' := p[..|p| - 1];
      EncryptPrefix(e, iv, p', k);
      assert p'[..k] == p[..k];
      assert CbcEncrypt(e, iv, p)[..k] == CbcEncrypt(e, iv, p')[..k];
    } else {
      assert p[..k] == p;
    }
  }

  /** C_i = E(P_i xor C_{i-1}) at every position, C_{-1} being the iv. */
  lemma EncryptAt(e: BlockFn, iv: Block, p: seq<Block>, i: nat)
    requires i < |p|
    ensures CbcEncrypt(e, iv, p)[i] == e(XorBlock(if i == 0 then iv else CbcEncrypt(e, iv, p)[i - 1], p[i]))
  {
    var c := CbcEncrypt(e, iv, p);
    EncryptPrefix(e, iv, p, i);
    EncryptPrefix(e, iv, p, i + 1);
    assert p[..i + 1][..i] == p[..i] && c[..i + 1][i] == c[i] && (i > 0 ==> c[..i][i - 1] == c[i - 1]);
  }

  lemma {:induction false} DecryptPrefix(d: BlockFn, iv: Block, c: seq<Block>, k: nat)
    requires k <= |c|
    ensures CbcDecrypt(d, iv, c)[..k] == CbcDecrypt(d, iv, c[..k])
  {
    if k < |c| {
      var c' := c[..|c| - 1];
      DecryptPrefix(d, iv, c', k);
      assert c'[..k] == c[..k];
      assert CbcDecrypt(d, iv, c)[..k] == CbcDecrypt(d, iv, c')[..k];
    } else {
      assert c[..k] == c;
    }
  }

  /** P_i = D(C_i) xor C_{i-1} at every position. */
  lemma DecryptAt(d: BlockFn, iv: Block, c: seq<Block>, i: nat)
    requires i < |c|
    ensures CbcDecrypt(d, iv, c)[i] == XorBlock(d(c[i]), if i == 0 then iv else c[i - 1])
  {
    var p := CbcDecrypt(d, iv, c);
    DecryptPrefix(d, iv, c, i + 1);
    assert c[..i + 1][..i] == c[..i] && p[..i + 1][i] == p[i];
    assert i > 0 ==> c[..i][i - 1] == c[i - 1];
  }

  /** Decryption with the inverse block function undoes encryption. */
  lemma {:induction false} RoundTrip(e: BlockFn, d: BlockFn, iv: Block, p: seq<Block>)
    requires Inverts(d, e)
    ensures CbcDecrypt(d, iv, CbcEncrypt(e, iv, p)) == p
  {
    if p != [] {
      var p', b := p[..|p| - 1], p[|p| - 1];
      var c' := CbcEncrypt(e, iv, p');
      RoundTrip(e, d, iv, p');
      assert CbcEncrypt(e, iv, p)[..|p| - 1] == c';
      XorBlockSymmetric(Chain(iv, c'), b);
      XorBlockTwice(b, Chain(iv, c'));
      assert p == p' + [b];
    }
  }

  /** Encryption undoes decryption. */
  lemma {:induction false} RoundTripBack(e: BlockFn, d: BlockFn, iv: Block, c: seq<Block>)
    requires Inverts(e, d)
    ensures CbcEncrypt(e, iv, CbcDecrypt(d, iv, c)) == c
  {
    if c != [] {
      var c', b := c[..|c| - 1], c[|c| - 1];
      var p := CbcDecrypt(d, iv, c);
      RoundTripBack(e, d, iv, c');
      assert p[..|c| - 1] == CbcDecrypt(d, iv, c');
      XorBlockTwice(d(b), Chain(iv, c'));
      XorBlockSymmetric(Chain(iv, c'), p[|c| - 1]);
      assert c == c' + [b];
    }
  }

  /** Encrypting in two calls, the second with the last cipher block of the first as its iv. */
  lemma {:induction false} EncryptAppend(e: BlockFn, iv: Block, a: seq<Block>, b: seq<Block>)
    ensures CbcEncrypt(e, iv, a + b) == CbcEncrypt(e, iv, a) + CbcEncrypt(e, Chain(iv, CbcEncrypt(e, iv, a)), b)
    decreases |b|
  {
    var ca := CbcEncrypt(e, iv, a);
    if b == [] {
      assert a + b == a;
    } else {
      var b' := b[..|b| - 1];
      EncryptAppend(e, iv, a, b');
      assert (a + b)[..|a + b| - 1] == a + b';
      var cb := CbcEncrypt(e, Chain(iv, ca), b');
      assert Chain(iv, ca + cb) == Chain(Chain(iv, ca), cb);
    }
  }

  lemma {:induction false} DecryptAppend(d: BlockFn, iv: Block, a: seq<Block>, b: seq<Block>)
    ensures CbcDecrypt(d, iv, a + b) == CbcDecrypt(d, iv, a) + CbcDecrypt(d, Chain(iv, a), b)
    decreases |b|
  {
    if b == [] {
      assert a + b == a;
    } else {
      var b' := b[..|b| - 1];
      DecryptAppend(d, iv, a, b');
      assert (a + b)[..|a + b| - 1] == a + b';
      assert Chain(iv, a + b') == Chain(Chain(iv, a), b');
    }
  }
}
