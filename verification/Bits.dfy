/** Bytes and words as numbers: writing into a byte sequence, exclusive or, and. */
module Bits {

  type Byte = x: int | 0 <= x < 0x100
  type Half = x: int | 0 <= x < 0x1_0000
  type Word = x: int | 0 <= x < 0x1_0000_0000

  /** `s` with `b` written from `at` on. */
  function Put(s: seq<Byte>, at: nat, b: seq<Byte>): (r: seq<Byte>)
    requires at + |b| <= |s|
    ensures |r| == |s|
  {
    seq(|s|, k requires 0 <= k < |s| => if at <= k < at + |b| then b[k - at] else s[k])
  }

  function Pow2(n: nat): (r: nat)
    ensures r > 0
  {
    if n == 0 then 1 else 2 * Pow2(n - 1)
  }

  lemma PowerValues()
    ensures Pow2(8) == 0x100 && Pow2(32) == 0x1_0000_0000
  {
    assert Pow2(16) == 0x100 * Pow2(8);
    assert Pow2(24) == 0x100 * Pow2(16);
  }

  lemma HalfFirst(x: nat, p: nat)
    requires p > 0
    ensures x / (2 * p) == x / 2 / p
  {
    var q, r := x / 2 / p, x / 2 % p;
    assert x / 2 == q * p + r;
    assert x == q * (2 * p) + (2 * r + x % 2) && 0 <= 2 * r + x % 2 < 2 * p;
    QuotientIs(x, 2 * p, q, 2 * r + x % 2);
  }

  lemma QuotientIs(x: nat, d: nat, q: nat, r: nat)
    requires x == q * d + r && r < d
    ensures x / d == q
  {
    var s := x / d;
    assert x == s * d + x % d;
    Scales(s + 1, q, d);
    Scales(q + 1, s, d);
  }

  lemma Scales(a: nat, b: nat, d: nat)
    ensures a <= b ==> a * d <= b * d
  {
  }

  /** Bit `i + 1` of a number is bit `i` of its half. */
  lemma BitOfHalf(x: nat, i: nat)
    ensures x / Pow2(0) % 2 == x % 2 && x / Pow2(i + 1) % 2 == x / 2 / Pow2(i) % 2
  {
    HalfFirst(x, Pow2(i));
  }

  /** Exclusive or of the low `n` bits. */
  function XorBits(n: nat, a: nat, b: nat): (r: nat)
    ensures r < Pow2(n)
  {
    if n == 0 then 0 else (a % 2 + b % 2) % 2 + 2 * XorBits(n - 1, a / 2, b / 2)
  }

  lemma HalfAndBit(low: nat, high: nat)
    requires low < 2
    ensures (low + 2 * high) % 2 == low && (low + 2 * high) / 2 == high
  {
  }

  lemma XorBitsDigits(n: nat, a: nat, b: nat)
    requires n > 0
    ensures XorBits(n, a, b) % 2 == (a % 2 + b % 2) % 2
    ensures XorBits(n, a, b) / 2 == XorBits(n - 1, a / 2, b / 2)
  {
    HalfAndBit((a % 2 + b % 2) % 2, XorBits(n - 1, a / 2, b / 2));
  }

  lemma BitTwice(a: nat, b: nat)
    requires a < 2 && b < 2
    ensures ((a + b) % 2 + b) % 2 == a
  {
  }

  lemma SameNumber(x: nat, y: nat)
    requires x % 2 == y % 2 && x / 2 == y / 2
    ensures x == y
  {
    assert x == 2 * (x / 2) + x % 2 && y == 2 * (y / 2) + y % 2;
  }

  lemma XorBitsUndone(n: nat, a: nat, b: nat)
    requires n > 0 && XorBits(n - 1, XorBits(n - 1, a / 2, b / 2), b / 2) == a / 2
    ensures XorBits(n, XorBits(n, a, b), b) == a
  {
    var x := XorBits(n, a, b);
    XorBitsDigits(n, a, b);
    XorBitsDigits(n, x, b);
    BitTwice(a % 2, b % 2);
    SameNumber(XorBits(n, x, b), a);
  }

  lemma {:induction false} XorBitsTwice(n: nat, a: nat, b: nat)
    requires a < Pow2(n)
    ensures XorBits(n, XorBits(n, a, b), b) == a
  {
    if n > 0 {
      XorBitsTwice(n - 1, a / 2, b / 2);
      XorBitsUndone(n, a, b);
    }
  }

  lemma {:induction false} XorBitsSymmetric(n: nat, a: nat, b: nat)
    ensures XorBits(n, a, b) == XorBits(n, b, a)
  {
    if n > 0 {
      XorBitsSymmetric(n - 1, a / 2, b / 2);
    }
  }

  /** A bit of the exclusive or is set exactly when the two bits differ. */
  lemma {:induction false} XorBitsAt(n: nat, a: nat, b: nat, i: nat)
    requires i < n
    ensures XorBits(n, a, b) / Pow2(i) % 2 == 1 <==> a / Pow2(i) % 2 != b / Pow2(i) % 2
  {
    var x := XorBits(n, a, b);
    XorBitsDigits(n, a, b);
    if i == 0 {
      BitOfHalf(x, 0);
      BitOfHalf(a, 0);
      BitOfHalf(b, 0);
    } else {
      BitOfHalf(x, i - 1);
      BitOfHalf(a, i - 1);
      BitOfHalf(b, i - 1);
      XorBitsAt(n - 1, a / 2, b / 2, i - 1);
    }
  }

  lemma XorByteAt(a: Byte, b: Byte, i: nat)
    requires i < 8
    ensures XorByte(a, b) / Pow2(i) % 2 == 1 <==> a / Pow2(i) % 2 != b / Pow2(i) % 2
  {
    XorBitsAt(8, a, b, i);
  }

  lemma XorWordAt(a: Word, b: Word, i: nat)
    requires i < 32
    ensures XorWord(a, b) / Pow2(i) % 2 == 1 <==> a / Pow2(i) % 2 != b / Pow2(i) % 2
  {
    XorBitsAt(32, a, b, i);
  }

  function XorByte(a: Byte, b: Byte): (r: Byte) {
    PowerValues();
    XorBits(8, a, b)
  }

  function XorWord(a: Word, b: Word): (r: Word) {
    PowerValues();
    XorBits(32, a, b)
  }

  /** Exclusive or with the same operand twice is the identity. */
  lemma XorTwice(a: Word, b: Word)
    ensures XorWord(XorWord(a, b), b) == a
  {
    PowerValues();
    XorBitsTwice(32, a, b);
  }

  lemma XorByteTwice(a: Byte, b: Byte)
    ensures XorByte(XorByte(a, b), b) == a
  {
    PowerValues();
    XorBitsTwice(8, a, b);
  }

  /** Conjunction of the low `n` bits. */
  function AndBits(n: nat, a: nat, b: nat): (r: nat)
    ensures r < Pow2(n)
  {
    if n == 0 then 0 else (a % 2) * (b % 2) + 2 * AndBits(n - 1, a / 2, b / 2)
  }

  /** Every one of the low `n` bits that is set in `b` is set in `a`. */
  predicate Covers(n: nat, a: nat, b: nat) {
    n == 0 || ((b % 2 == 1 ==> a % 2 == 1) && Covers(n - 1, a / 2, b / 2))
  }

  lemma {:induction false} AndIsIdentityIffCovers(n: nat, a: nat, b: nat)
    requires b < Pow2(n)
    ensures AndBits(n, a, b) == b <==> Covers(n, a, b)
  {
    if n > 0 {
      AndIsIdentityIffCovers(n - 1, a / 2, b / 2);
      assert b == b % 2 + 2 * (b / 2);
      AndLow(a % 2, b % 2);
    }
  }

  lemma AndLow(a: nat, b: nat)
    requires a < 2 && b < 2
    ensures a * b < 2 && (a * b == b <==> (b == 1 ==> a == 1))
  {
    if b == 0 {
      assert a * b == 0;
    }
  }

  function AndByte(a: Byte, b: Byte): (r: Byte) {
    PowerValues();
    AndBits(8, a, b)
  }

  lemma AndBitsDigits(n: nat, a: nat, b: nat)
    requires n > 0
    ensures AndBits(n, a, b) % 2 == (a % 2) * (b % 2)
    ensures AndBits(n, a, b) / 2 == AndBits(n - 1, a / 2, b / 2)
  {
    AndLow(a % 2, b % 2);
    HalfAndBit((a % 2) * (b % 2), AndBits(n - 1, a / 2, b / 2));
  }

  /** A bit of the conjunction is set exactly when both bits are. */
  lemma {:induction false} AndBitsAt(n: nat, a: nat, b: nat, i: nat)
    requires i < n
    ensures AndBits(n, a, b) / Pow2(i) % 2 == 1 <==> a / Pow2(i) % 2 == 1 && b / Pow2(i) % 2 == 1
  {
    var x := AndBits(n, a, b);
    AndBitsDigits(n, a, b);
    if i == 0 {
      BitOfHalf(x, 0);
      BitOfHalf(a, 0);
      BitOfHalf(b, 0);
      AndLow(a % 2, b % 2);
    } else {
      BitOfHalf(x, i - 1);
      BitOfHalf(a, i - 1);
      BitOfHalf(b, i - 1);
      AndBitsAt(n - 1, a / 2, b / 2, i - 1);
    }
  }

  lemma AndByteAt(a: Byte, b: Byte, i: nat)
    requires i < 8
    ensures AndByte(a, b) / Pow2(i) % 2 == 1 <==> a / Pow2(i) % 2 == 1 && b / Pow2(i) % 2 == 1
  {
    AndBitsAt(8, a, b, i);
  }

  /** Covering is bit by bit. */
  lemma {:induction false} CoversIff(n: nat, a: nat, b: nat)
    ensures Covers(n, a, b) <==> forall i: nat :: i < n && b / Pow2(i) % 2 == 1 ==> a / Pow2(i) % 2 == 1
  {
    if n > 0 {
      CoversIff(n - 1, a / 2, b / 2);
      BitOfHalf(a, 0);
      BitOfHalf(b, 0);
      forall i: nat
        ensures a / Pow2(i + 1) % 2 == a / 2 / Pow2(i) % 2 && b / Pow2(i + 1) % 2 == b / 2 / Pow2(i) % 2
      {
        BitOfHalf(a, i);
        BitOfHalf(b, i);
      }
      if Covers(n, a, b) {
        forall i: nat | i < n && b / Pow2(i) % 2 == 1
          ensures a / Pow2(i) % 2 == 1
        {
          if i > 0 {
            BitOfHalf(a, i - 1);
            BitOfHalf(b, i - 1);
          }
        }
      } else if b % 2 == 1 ==> a % 2 == 1 {
        var j: nat :| j < n - 1 && b / 2 / Pow2(j) % 2 == 1 && a / 2 / Pow2(j) % 2 != 1;
        BitOfHalf(a, j);
        BitOfHalf(b, j);
        assert b / Pow2(j + 1) % 2 == 1 && a / Pow2(j + 1) % 2 != 1;
      } else {
        assert b / Pow2(0) % 2 == 1 && a / Pow2(0) % 2 != 1;
      }
    }
  }

  /** Anything can be written over a byte whose bits are all set. */
  lemma ErasedCoversAll(b: Byte)
    ensures Covers(8, 0xFF, b)
  {
    AllOnesCover(8, b);
  }

  lemma {:induction false} AllOnesCover(n: nat, b: nat)
    ensures Covers(n, Pow2(n) - 1, b)
  {
    if n > 0 {
      assert (Pow2(n) - 1) % 2 == 1 && (Pow2(n) - 1) / 2 == Pow2(n - 1) - 1;
      AllOnesCover(n - 1, b / 2);
    }
  }
}
