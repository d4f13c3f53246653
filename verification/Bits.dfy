/** Python's unbounded integers, read as two's-complement bit strings.
    Bit `k` of a negative number is the bit of its infinite sign extension,
    so every operator below is Python's own on all integers. */
module Bits {

  function Bit(n: int, k: nat): bool
    decreases k
  {
    if k == 0 then n % 2 == 1 else Bit(n / 2, k - 1)
  }

  function And(a: int, b: int): int
    decreases if a < 0 then -a else a
  {
    if a == 0 || b == 0 then 0
    else if a == -1 then b
    else if b == -1 then a
    else 2 * And(a / 2, b / 2) + (if a % 2 == 1 && b % 2 == 1 then 1 else 0)
  }

  function Not(a: int): int { -a - 1 }

  function Or(a: int, b: int): int { Not(And(Not(a), Not(b))) }

  function Xor(a: int, b: int): int { And(Or(a, b), Not(And(a, b))) }

  function Shl(a: int, s: nat): int {
    if s == 0 then a else 2 * Shl(a, s - 1)
  }

  function Shr(a: int, s: nat): int
    decreases s
  {
    if s == 0 then a else Shr(a / 2, s - 1)
  }

  /** (1 << k) */
  function Pow2(k: nat): (p: nat)
    ensures p >= 1
  {
    if k == 0 then 1 else 2 * Pow2(k - 1)
  }

  /** (1 << k) - 1 */
  function Mask(k: nat): nat { Pow2(k) - 1 }

  ghost predicate SameBits(a: int, b: int) {
    forall k: nat :: Bit(a, k) == Bit(b, k)
  }

  // ----- each operator, bit by bit -----

  lemma {:induction false} BitOfConst(k: nat)
    ensures !Bit(0, k) && Bit(-1, k)
  {
    if k > 0 { BitOfConst(k - 1); }
  }

  lemma {:induction false} BitOfAnd(a: int, b: int, k: nat)
    ensures Bit(And(a, b), k) == (Bit(a, k) && Bit(b, k))
    decreases k
  {
    BitOfConst(k);
    if a != 0 && b != 0 && a != -1 && b != -1 && k > 0 {
      BitOfAnd(a / 2, b / 2, k - 1);
    }
  }

  lemma {:induction false} BitOfNot(a: int, k: nat)
    ensures Bit(Not(a), k) == !Bit(a, k)
    decreases k
  {
    if k > 0 {
      assert Not(a) / 2 == Not(a / 2);
      BitOfNot(a / 2, k - 1);
    }
  }

  lemma BitOfOr(a: int, b: int, k: nat)
    ensures Bit(Or(a, b), k) == (Bit(a, k) || Bit(b, k))
  {
    BitOfNot(a, k);
    BitOfNot(b, k);
    BitOfAnd(Not(a), Not(b), k);
    BitOfNot(And(Not(a), Not(b)), k);
  }

  lemma BitOfXor(a: int, b: int, k: nat)
    ensures Bit(Xor(a, b), k) == (Bit(a, k) != Bit(b, k))
  {
    BitOfOr(a, b, k);
    BitOfAnd(a, b, k);
    BitOfNot(And(a, b), k);
    BitOfAnd(Or(a, b), Not(And(a, b)), k);
  }

  lemma {:induction false} BitOfShl(a: int, s: nat, k: nat)
    ensures Bit(Shl(a, s), k) == (k >= s && Bit(a, k - s))
  {
    if s > 0 && k > 0 {
      BitOfShl(a, s - 1, k - 1);
      assert Shl(a, s) / 2 == Shl(a, s - 1);
    }
  }

  lemma {:induction false} BitOfShr(a: int, s: nat, k: nat)
    ensures Bit(Shr(a, s), k) == Bit(a, k + s)
    decreases s
  {
    if s > 0 { BitOfShr(a / 2, s - 1, k); }
  }

  lemma {:induction false} BitOfMask(n: nat, k: nat)
    ensures Bit(Mask(n), k) == (k < n)
  {
    if n == 0 {
      BitOfConst(k);
    } else if k > 0 {
      assert Mask(n) / 2 == Mask(n - 1);
      BitOfMask(n - 1, k - 1);
    }
  }

  // ----- the same facts for all bits at once -----

  lemma BitsOfAnd(a: int, b: int)
    ensures forall k: nat :: Bit(And(a, b), k) == (Bit(a, k) && Bit(b, k))
  {
    forall k: nat { BitOfAnd(a, b, k); }
  }

  lemma BitsOfNot(a: int)
    ensures forall k: nat :: Bit(Not(a), k) == !Bit(a, k)
  {
    forall k: nat { BitOfNot(a, k); }
  }

  lemma BitsOfShl(a: int, s: nat)
    ensures forall k: nat :: Bit(Shl(a, s), k) == (k >= s && Bit(a, k - s))
  {
    forall k: nat { BitOfShl(a, s, k); }
  }

  lemma BitsOfMask(n: nat)
    ensures forall k: nat :: Bit(Mask(n), k) == (k < n)
  {
    forall k: nat { BitOfMask(n, k); }
  }

  // ----- bits determine the number -----

  lemma {:induction false} BitsDetermine(a: int, b: int)
    requires SameBits(a, b)
    ensures a == b
    decreases if a < 0 then -a else a
  {
    assert Bit(a, 0) == Bit(b, 0);
    if a == 0 || a == -1 {
      SignBits(a, b);
    } else {
      forall k: nat ensures Bit(a / 2, k) == Bit(b / 2, k) {
        assert Bit(a, k + 1) == Bit(b, k + 1);
      }
      BitsDetermine(a / 2, b / 2);
    }
  }

  lemma {:induction false} SignBits(a: int, b: int)
    requires a == 0 || a == -1
    requires SameBits(a, b)
    ensures a == b
    decreases if b < 0 then -b else b
  {
    assert Bit(a, 0) == Bit(b, 0);
    if b != 0 && b != -1 {
      forall k: nat ensures Bit(a, k) == Bit(b / 2, k) {
        BitOfConst(k);
        BitOfConst(k + 1);
        assert Bit(a, k + 1) == Bit(b, k + 1);
      }
      SignBits(a, b / 2);
    }
  }

  // ----- sizes -----

  lemma HighBitsClear(a: int, n: nat)
    requires 0 <= a < Pow2(n)
    ensures forall k: nat :: k >= n ==> !Bit(a, k)
  {
    forall k: nat | k >= n ensures !Bit(a, k) {
      HighBitClear(a, n, k);
    }
  }

  lemma {:induction false} HighBitClear(a: int, n: nat, k: nat)
    requires 0 <= a < Pow2(n) && k >= n
    ensures !Bit(a, k)
  {
    if n == 0 {
      BitOfConst(k);
    } else {
      HighBitClear(a / 2, n - 1, k - 1);
    }
  }

  lemma {:induction false} FitsWhenHighBitsClear(a: int, n: nat)
    requires forall k: nat :: k >= n ==> !Bit(a, k)
    ensures 0 <= a < Pow2(n)
    decreases n
  {
    if n == 0 {
      forall k: nat ensures Bit(a, k) == Bit(0, k) { BitOfConst(k); }
      BitsDetermine(a, 0);
    } else {
      forall k: nat | k >= n - 1 ensures !Bit(a / 2, k) {
        assert !Bit(a, k + 1);
      }
      FitsWhenHighBitsClear(a / 2, n - 1);
    }
  }

  lemma LowBitsFit(a: int, s: nat)
    ensures 0 <= And(a, Mask(s)) < Pow2(s)
  {
    BitsOfAnd(a, Mask(s));
    BitsOfMask(s);
    FitsWhenHighBitsClear(And(a, Mask(s)), s);
  }

  /** a & (2^s - 1) is a modulo 2^s. */
  lemma {:induction false} ShrSplits(a: int, s: nat)
    ensures a == Shr(a, s) * Pow2(s) + And(a, Mask(s))
    decreases s
  {
    if s > 0 {
      ShrSplits(a / 2, s - 1);
      assert And(a, Mask(s)) == 2 * And(a / 2, Mask(s - 1)) + a % 2 by {
        LowBitsStep(a, s);
      }
      DoubleProduct(Shr(a / 2, s - 1), Pow2(s - 1));
    }
  }

  lemma DoubleProduct(x: int, p: int)
    ensures x * (2 * p) == 2 * (x * p)
  {
  }

  lemma LowBitsStep(a: int, s: nat)
    requires s > 0
    ensures And(a, Mask(s)) == 2 * And(a / 2, Mask(s - 1)) + a % 2
  {
    var r := 2 * And(a / 2, Mask(s - 1)) + a % 2;
    forall k: nat ensures Bit(And(a, Mask(s)), k) == Bit(r, k) {
      BitOfAnd(a, Mask(s), k);
      BitOfMask(s, k);
      if k > 0 {
        assert r / 2 == And(a / 2, Mask(s - 1));
        BitOfAnd(a / 2, Mask(s - 1), k - 1);
        BitOfMask(s - 1, k - 1);
      }
    }
    BitsDetermine(And(a, Mask(s)), r);
  }

  /** Clearing the low s bits rounds down to a multiple of 2^s. */
  lemma AndNotMask(a: int, s: nat)
    ensures And(a, Not(Mask(s))) == Shr(a, s) * Pow2(s)
  {
    var low := And(a, Mask(s));
    var high := And(a, Not(Mask(s)));
    BitsOfAnd(a, Mask(s));
    BitsOfAnd(a, Not(Mask(s)));
    BitsOfNot(Mask(s));
    LowBitsFit(a, s);
    DisjointSum(high, low, s);
    var whole := high + low;
    forall k: nat ensures Bit(whole, k) == Bit(a, k) {
      BitOfOr(high, low, k);
    }
    BitsDetermine(whole, a);
    ShrSplits(a, s);
  }

  /** Numbers with no bit in common add up to their union. */
  lemma {:induction false} DisjointSum(a: int, b: int, s: nat)
    requires forall k: nat :: !(Bit(a, k) && Bit(b, k))
    requires 0 <= b < Pow2(s)
    ensures Or(a, b) == a + b
    decreases s
  {
    if s == 0 {
      forall k: nat ensures Bit(Or(a, 0), k) == Bit(a, k) { BitOfOr(a, 0, k); BitOfConst(k); }
      BitsDetermine(Or(a, 0), a);
    } else {
      forall k: nat ensures !(Bit(a / 2, k) && Bit(b / 2, k)) {
        assert !(Bit(a, k + 1) && Bit(b, k + 1));
      }
      DisjointSum(a / 2, b / 2, s - 1);
      assert !(Bit(a, 0) && Bit(b, 0));
      var sum := a + b;
      assert sum % 2 == a % 2 + b % 2 && sum / 2 == a / 2 + b / 2;
      forall k: nat ensures Bit(Or(a, b), k) == Bit(sum, k) {
        BitOfOr(a, b, k);
        if k > 0 { BitOfOr(a / 2, b / 2, k - 1); }
      }
      BitsDetermine(Or(a, b), sum);
    }
  }
}
