/** Bytes, and machine words as sequences of bits, least significant bit first; conversions between
    them, and the powers of two that the conversions need. */
module Bits {

  type Byte = b: nat | b < 256

  /** A machine word: index 0 is the least significant bit, the length is the word's width. */
  type Word = seq<bool>

  function Pow2(n: nat): (p: nat)
    ensures p > 0
  {
    if n == 0 then 1 else 2 * Pow2(n - 1)
  }

  function ToBits(n: nat, width: nat): (w: Word)
    ensures |w| == width
  {
    if width == 0 then [] else [n % 2 == 1] + ToBits(n / 2, width - 1)
  }

  function FromBits(w: Word): (n: nat)
    ensures n < Pow2(|w|)
  {
    if w == [] then 0 else (if w[0] then 1 else 0) + 2 * FromBits(w[1..])
  }

  function Zeros(n: nat): (w: Word)
    ensures |w| == n && forall i :: 0 <= i < n ==> !w[i]
  {
    seq(n, _ => false)
  }

  function Xor(a: Word, b: Word): (w: Word)
    requires |a| == |b|
    ensures |w| == |a| && forall i :: 0 <= i < |w| ==> w[i] == (a[i] != b[i])
  {
    seq(|a|, i requires 0 <= i < |a| => a[i] != b[i])
  }

  function Reverse(w: Word): (r: Word)
    ensures |r| == |w| && forall i :: 0 <= i < |w| ==> r[i] == w[|w| - 1 - i]
  {
    seq(|w|, i requires 0 <= i < |w| => w[|w| - 1 - i])
  }

  lemma ReverseTwice(w: Word)
    ensures Reverse(Reverse(w)) == w
  {
  }

  lemma ReverseXor(a: Word, b: Word)
    requires |a| == |b|
    ensures Reverse(Xor(a, b)) == Xor(Reverse(a), Reverse(b))
  {
  }

  lemma XorTwice(a: Word, b: Word)
    requires |a| == |b|
    ensures Xor(Xor(a, b), b) == a
  {
  }

  lemma Pow2Add(a: nat, b: nat)
    ensures Pow2(a + b) == Pow2(a) * Pow2(b)
  {
    if a > 0 {
      Pow2Add(a - 1, b);
    }
  }

  lemma {:induction false} FromToBits(n: nat, width: nat)
    requires n < Pow2(width)
    ensures FromBits(ToBits(n, width)) == n
  {
    if width > 0 {
      FromToBits(n / 2, width - 1);
      assert ToBits(n, width)[1..] == ToBits(n / 2, width - 1);
    }
  }

  lemma {:induction false} ToFromBits(w: Word)
    ensures ToBits(FromBits(w), |w|) == w
  {
    if w != [] {
      ToFromBits(w[1..]);
      assert FromBits(w) / 2 == FromBits(w[1..]);
      assert w == [w[0]] + w[1..];
    }
  }

  lemma FromBitsInjective(a: Word, b: Word)
    requires |a| == |b| && FromBits(a) == FromBits(b)
    ensures a == b
  {
    ToFromBits(a);
    ToFromBits(b);
  }

  lemma ByteBitsInjective(a: Byte, b: Byte)
    requires ToBits(a, 8) == ToBits(b, 8)
    ensures a == b
  {
    Pow2Small();
    FromToBits(a, 8);
    FromToBits(b, 8);
  }

  lemma Pow2Small()
    ensures Pow2(4) == 16 && Pow2(8) == 256 && Pow2(16) == 65536
  {
    assert Pow2(4) == 16;
    Pow2Add(4, 4);
    Pow2Add(8, 8);
  }

  lemma {:induction false} ToBitsZero(width: nat)
    ensures ToBits(0, width) == Zeros(width)
  {
    if width > 0 {
      ToBitsZero(width - 1);
    }
  }

  lemma Double(p: nat, v: nat)
    ensures (2 * p) * v == 2 * (p * v)
  {
  }

  /** Concatenating words: the second one carries the high bits. */
  lemma {:induction false} FromBitsConcat(a: Word, b: Word)
    ensures FromBits(a + b) == FromBits(a) + Pow2(|a|) * FromBits(b)
  {
    if a == [] {
      assert a + b == b;
    } else {
      FromBitsConcat(a[1..], b);
      assert (a + b)[1..] == a[1..] + b;
      Double(Pow2(|a| - 1), FromBits(b));
    }
  }

  /** The low `low` bits and the remaining high bits of a number. */
  lemma ToBitsConcat(lo: nat, hi: nat, low: nat, high: nat)
    requires lo < Pow2(low) && hi < Pow2(high)
    ensures ToBits(lo + Pow2(low) * hi, low + high) == ToBits(lo, low) + ToBits(hi, high)
  {
    var a, b := ToBits(lo, low), ToBits(hi, high);
    FromToBits(lo, low);
    FromToBits(hi, high);
    FromBitsConcat(a, b);
    ToFromBits(a + b);
  }
}
