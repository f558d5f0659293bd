/** The bit operations of the field packer, on unsigned numbers: shifting, masking and joining, by
    what they do to each bit. */
module BitOps {
  import opened Bits
  import opened Wrapping

  function Bit(n: nat, i: nat): bool
    decreases i
  {
    if i == 0 then n % 2 == 1 else Bit(n / 2, i - 1)
  }

  /** n >> k */
  function ShiftRight(n: nat, k: nat): nat
    decreases k
  {
    if k == 0 then n else ShiftRight(n / 2, k - 1)
  }

  /** n << k */
  function ShiftLeft(n: nat, k: nat): nat {
    if k == 0 then n else 2 * ShiftLeft(n, k - 1)
  }

  /** n & ((1 << w) - 1) */
  function Low(n: nat, w: nat): nat
    decreases w
  {
    if w == 0 then 0 else n % 2 + 2 * Low(n / 2, w - 1)
  }

  /** a | b */
  function BitOr(a: nat, b: nat): nat
    decreases a + b
  {
    if a == 0 && b == 0 then 0 else (if a % 2 == 1 || b % 2 == 1 then 1 else 0) + 2 * BitOr(a / 2, b / 2)
  }

  lemma {:induction false} BitOfZero(i: nat)
    ensures !Bit(0, i)
    decreases i
  {
    if i > 0 {
      BitOfZero(i - 1);
    }
  }

  lemma {:induction false} BitOfShiftRight(n: nat, k: nat, i: nat)
    ensures Bit(ShiftRight(n, k), i) == Bit(n, k + i)
    decreases k
  {
    if k > 0 {
      BitOfShiftRight(n / 2, k - 1, i);
    }
  }

  lemma {:induction false} BitOfShiftLeft(n: nat, k: nat, i: nat)
    ensures Bit(ShiftLeft(n, k), i) == (i >= k && Bit(n, i - k))
    decreases k
  {
    if k > 0 && i > 0 {
      assert ShiftLeft(n, k) / 2 == ShiftLeft(n, k - 1);
      BitOfShiftLeft(n, k - 1, i - 1);
    }
  }

  lemma {:induction false} BitOfLow(n: nat, w: nat, i: nat)
    ensures Bit(Low(n, w), i) == (i < w && Bit(n, i))
    decreases w
  {
    if w == 0 {
      BitOfZero(i);
    } else {
      Half(n % 2, Low(n / 2, w - 1));
      if i > 0 {
        BitOfLow(n / 2, w - 1, i - 1);
      }
    }
  }

  lemma Half(d: nat, x: nat)
    requires d <= 1
    ensures (d + 2 * x) / 2 == x && (d + 2 * x) % 2 == d
  {
  }

  lemma {:induction false} BitOfOr(a: nat, b: nat, i: nat)
    ensures Bit(BitOr(a, b), i) == (Bit(a, i) || Bit(b, i))
    decreases i
  {
    if a == 0 && b == 0 {
      BitOfZero(i);
    } else {
      Half(if a % 2 == 1 || b % 2 == 1 then 1 else 0, BitOr(a / 2, b / 2));
      if i > 0 {
        BitOfOr(a / 2, b / 2, i - 1);
      }
    }
  }

  lemma {:induction false} BitOfWord(w: Word, i: nat)
    ensures Bit(FromBits(w), i) == (i < |w| && w[i])
    decreases |w|
  {
    if w == [] {
      BitOfZero(i);
    } else if i > 0 {
      assert FromBits(w) / 2 == FromBits(w[1..]);
      BitOfWord(w[1..], i - 1);
    }
  }

  /** Masking is the remainder. */
  lemma {:induction false} LowIsRemainder(n: nat, w: nat)
    ensures Low(n, w) == n % Pow2(w) && Low(n, w) < Pow2(w)
    decreases w
  {
    if w > 0 {
      LowIsRemainder(n / 2, w - 1);
      DoubledRemainder(n, n / 2, Pow2(w - 1), Pow2(w), Low(n / 2, w - 1));
    }
  }

  lemma DoubledRemainder(n: nat, half: nat, p: nat, m: nat, r: nat)
    requires n == 2 * half + n % 2 && 0 < p && m == 2 * p && r == half % p
    ensures n % m == n % 2 + 2 * r < m
  {
    var q := half / p;
    DoubledQuotient(n, half, p, m, q, r);
    ModUnique(n, m, q, n % 2 + 2 * r);
  }

  lemma DoubledQuotient(n: nat, half: nat, p: nat, m: nat, q: nat, r: nat)
    requires n == 2 * half + n % 2 && 0 < p && m == 2 * p && q == half / p && r == half % p
    ensures n == m * q + (n % 2 + 2 * r)
  {
    assert half == p * q + r;
    Double(p, q);
  }

  /** Numbers with the same bits are equal. */
  lemma {:induction false} SameBits(a: nat, b: nat, w: nat)
    requires a < Pow2(w) && b < Pow2(w)
    requires forall i: nat :: i < w ==> Bit(a, i) == Bit(b, i)
    ensures a == b
    decreases w
  {
    if w > 0 {
      forall i: nat | i < w - 1
        ensures Bit(a / 2, i) == Bit(b / 2, i)
      {
        assert Bit(a, i + 1) == Bit(b, i + 1);
      }
      SameBits(a / 2, b / 2, w - 1);
      assert Bit(a, 0) == Bit(b, 0);
    }
  }

  /** A number that is not zero has a bit. */
  lemma {:induction false} SomeBit(n: nat) returns (i: nat)
    requires n > 0
    ensures Bit(n, i)
  {
    if n % 2 == 1 {
      i := 0;
    } else {
      i := SomeBit(n / 2);
      i := i + 1;
    }
  }

  /** Bits beyond the width show how large a number is. */
  lemma {:induction false} NoHighBits(n: nat, w: nat)
    requires forall i: nat :: i >= w ==> !Bit(n, i)
    ensures n < Pow2(w)
    decreases w
  {
    if w == 0 {
      if n > 0 {
        var i := SomeBit(n);
      }
    } else {
      forall i: nat | i >= w - 1
        ensures !Bit(n / 2, i)
      {
        assert !Bit(n, i + 1);
      }
      NoHighBits(n / 2, w - 1);
    }
  }

  lemma {:induction false} HighBits(n: nat, w: nat, i: nat)
    requires n < Pow2(w) && i >= w
    ensures !Bit(n, i)
    decreases i
  {
    if w == 0 {
      BitOfZero(i);
    } else {
      HighBits(n / 2, w - 1, i - 1);
    }
  }
}
