/** The parametric CRC register shared by the BiSS frame generator and validator. */
module BissCrc {
  import opened Bits

  /** One turn of the register loop. */
  function Feed(crc: int, bit: bool, width: nat, poly: int): int
    requires width > 0
  {
    var feedback := bit != (And(crc, Pow2(width - 1)) != 0);
    var shifted := And(Shl(crc, 1), Mask(width));
    if feedback then Xor(shifted, poly) else shifted
  }

  /** Bit number `index` of a message of `bits` bits, most significant first. */
  function MessageBit(value: int, bits: int, index: nat): bool
    requires index < bits
  {
    And(Shr(value, bits - 1 - index), 1) != 0
  }

  /** The register after the first n message bits. */
  function Register(value: int, bits: int, n: nat, width: nat, polynomial: int, init: int): int
    requires width > 0
    requires n == 0 || n <= bits
  {
    if n == 0 then And(init, Mask(width))
    else Feed(Register(value, bits, n - 1, width, polynomial, init),
              MessageBit(value, bits, n - 1), width, And(polynomial, Mask(width)))
  }

  /** Final xor and inversion. */
  function Finish(crc: int, width: nat, xorValue: int, invert: bool): int {
    var mixed := Xor(crc, And(xorValue, Mask(width)));
    var flipped := if invert then And(Not(mixed), Mask(width)) else mixed;
    And(flipped, Mask(width))
  }

  function Turns(bits: int): nat { if bits < 0 then 0 else bits }

  /** What the loop of `crc_compute_bits` leaves behind. */
  function CrcOf(value: int, bits: int, crcBits: int, polynomial: int, init: int, xorValue: int, invert: bool): int {
    if crcBits <= 0 then 0
    else Finish(Register(value, bits, Turns(bits), crcBits, polynomial, init), crcBits, xorValue, invert)
  }

  method CrcComputeBits(value: int, bits: int, crcBits: int, polynomial: int, init: int, xorValue: int, invert: bool)
    returns (r: int)
    ensures r == CrcOf(value, bits, crcBits, polynomial, init, xorValue, invert)
  {
    if crcBits <= 0 {
      return 0;
    }
    var mask := Mask(crcBits);
    var topBit := Pow2(crcBits - 1);
    var crc := And(init, mask);
    var poly := And(polynomial, mask);
    var index := 0;
    while index < bits
      invariant index == 0 || index <= bits
      invariant index >= 0
      invariant crc == Register(value, bits, index, crcBits, polynomial, init)
    {
      ghost var before := crc;
      var bit := And(Shr(value, bits - 1 - index), 1) != 0;
      var feedback := bit != (And(crc, topBit) != 0);
      crc := And(Shl(crc, 1), mask);
      if feedback {
        crc := Xor(crc, poly);
      }
      assert bit == MessageBit(value, bits, index) && crc == Feed(before, bit, crcBits, poly);
      index := index + 1;
    }
    crc := Xor(crc, And(xorValue, mask));
    if invert {
      crc := And(Not(crc), mask);
    }
    r := And(crc, mask);
  }

  // ----- what one turn does to each bit -----

  lemma {:induction false} TopBit(a: int, s: nat)
    ensures (And(a, Pow2(s)) != 0) == Bit(a, s)
  {
    BitOfAnd(a, Pow2(s), s);
    forall k: nat ensures Bit(Pow2(s), k) == (k == s) { BitOfPow2(s, k); }
    BitsOfAnd(a, Pow2(s));
    if !Bit(a, s) {
      forall k: nat ensures Bit(And(a, Pow2(s)), k) == Bit(0, k) { BitOfConst(k); }
      BitsDetermine(And(a, Pow2(s)), 0);
    } else {
      BitOfConst(s);
    }
  }

  lemma {:induction false} BitOfPow2(s: nat, k: nat)
    ensures Bit(Pow2(s), k) == (k == s)
  {
    if s == 0 {
      if k > 0 { BitOfConst(k - 1); }
    } else if k > 0 {
      assert Pow2(s) / 2 == Pow2(s - 1);
      BitOfPow2(s - 1, k - 1);
    }
  }

  lemma MessageBitIs(value: int, bits: int, index: nat)
    requires index < bits
    ensures MessageBit(value, bits, index) == Bit(value, bits - 1 - index)
  {
    TopBit(Shr(value, bits - 1 - index), 0);
    BitOfShr(value, bits - 1 - index, 0);
  }

  ghost predicate Feedback(crc: int, bit: bool, width: nat)
    requires width > 0
  {
    bit != Bit(crc, width - 1)
  }

  lemma BitsOfFeed(crc: int, bit: bool, width: nat, poly: int, k: nat)
    requires width > 0 && k < width
    ensures Bit(Feed(crc, bit, width, poly), k)
         == ((k > 0 && Bit(crc, k - 1)) != (Feedback(crc, bit, width) && Bit(poly, k)))
  {
    TopBit(crc, width - 1);
    var shifted := And(Shl(crc, 1), Mask(width));
    BitOfShl(crc, 1, k);
    BitOfMask(width, k);
    BitOfAnd(Shl(crc, 1), Mask(width), k);
    BitOfXor(shifted, poly, k);
  }

  /** The two registers agree on their lowest m bits. */
  ghost predicate AgreeLow(a: int, b: int, m: nat) {
    forall k: nat :: k < m ==> Bit(a, k) == Bit(b, k)
  }

  ghost predicate Odd(poly: int) { Bit(poly, 0) }

  /** Running a turn backwards: agreement on m low bits after the turn means the feedback was
      the same and m - 1 low bits agreed before it. */
  lemma TurnBack(a: int, x: bool, b: int, y: bool, width: nat, poly: int, m: nat)
    requires 0 < m <= width && Odd(poly)
    requires AgreeLow(Feed(a, x, width, poly), Feed(b, y, width, poly), m)
    ensures Feedback(a, x, width) == Feedback(b, y, width)
    ensures AgreeLow(a, b, m - 1)
  {
    BitsOfFeed(a, x, width, poly, 0);
    BitsOfFeed(b, y, width, poly, 0);
    assert Bit(Feed(a, x, width, poly), 0) == Bit(Feed(b, y, width, poly), 0);
    forall k: nat | k < m - 1 ensures Bit(a, k) == Bit(b, k) {
      BitsOfFeed(a, x, width, poly, k + 1);
      BitsOfFeed(b, y, width, poly, k + 1);
      assert Bit(Feed(a, x, width, poly), k + 1) == Bit(Feed(b, y, width, poly), k + 1);
    }
  }

  lemma TopMessageBits(value: int, other: int, bits: int, n: nat)
    requires n < bits
    requires Bit(value, bits - 1 - n) == Bit(other, bits - 1 - n)
    ensures MessageBit(value, bits, n) == MessageBit(other, bits, n)
  {
    MessageBitIs(value, bits, n);
    MessageBitIs(other, bits, n);
  }

  ghost predicate SameBitsBelow(v1: int, v2: int, hi: int) {
    forall k: nat :: k < hi ==> Bit(v1, k) == Bit(v2, k)
  }

  ghost predicate SameBitsFrom(v1: int, v2: int, lo: int, hi: int) {
    forall k: nat :: lo <= k < hi ==> Bit(v1, k) == Bit(v2, k)
  }

  /** Equal message prefixes leave equal registers. */
  lemma {:induction false} SamePrefix(v1: int, v2: int, bits: int, n: nat, width: nat, polynomial: int, init: int)
    requires width > 0 && (n == 0 || n <= bits)
    requires SameBitsFrom(v1, v2, bits - n, bits)
    ensures Register(v1, bits, n, width, polynomial, init) == Register(v2, bits, n, width, polynomial, init)
  {
    if n > 0 {
      SamePrefix(v1, v2, bits, n - 1, width, polynomial, init);
      TopMessageBits(v1, v2, bits, n - 1);
    }
  }

  /** The zero-difference turn is invertible: registers that agree after equal bits agreed before. */
  lemma {:induction false} UnwindTail(v1: int, v2: int, bits: int, n: nat, m: nat, width: nat, polynomial: int, init: int)
    requires width > 0 && m <= n <= bits && Odd(polynomial)
    requires SameBitsBelow(v1, v2, bits - m)
    requires AgreeLow(Register(v1, bits, n, width, polynomial, init), Register(v2, bits, n, width, polynomial, init), width)
    ensures AgreeLow(Register(v1, bits, m, width, polynomial, init), Register(v2, bits, m, width, polynomial, init), width)
  {
    if m < n {
      var a, b := Register(v1, bits, n - 1, width, polynomial, init), Register(v2, bits, n - 1, width, polynomial, init);
      TopMessageBits(v1, v2, bits, n - 1);
      var x := MessageBit(v1, bits, n - 1);
      BitOfAnd(polynomial, Mask(width), 0);
      BitOfMask(width, 0);
      TurnBack(a, x, b, x, width, And(polynomial, Mask(width)), width);
      assert AgreeLow(a, b, width);
      UnwindTail(v1, v2, bits, n - 1, m, width, polynomial, init);
    }
  }

  /** Going back through the window each turn costs one bit of agreement. */
  lemma {:induction false} UnwindWindow(v1: int, v2: int, bits: int, n: nat, m: nat, width: nat, agree: nat, polynomial: int, init: int)
    requires width > 0 && m <= n <= bits && Odd(polynomial)
    requires n - m <= agree <= width
    requires AgreeLow(Register(v1, bits, n, width, polynomial, init), Register(v2, bits, n, width, polynomial, init), agree)
    ensures AgreeLow(Register(v1, bits, m, width, polynomial, init), Register(v2, bits, m, width, polynomial, init), agree - (n - m))
  {
    if m < n {
      var a, b := Register(v1, bits, n - 1, width, polynomial, init), Register(v2, bits, n - 1, width, polynomial, init);
      BitOfAnd(polynomial, Mask(width), 0);
      BitOfMask(width, 0);
      TurnBack(a, MessageBit(v1, bits, n - 1), b, MessageBit(v2, bits, n - 1), width, And(polynomial, Mask(width)), agree);
      UnwindWindow(v1, v2, bits, n - 1, m, width, agree - 1, polynomial, init);
    }
  }

  /** The messages differ, and every difference lies in `width` consecutive bits starting at `lo`. */
  ghost predicate Burst(v1: int, v2: int, bits: int, lo: int, width: nat) {
    && (exists k: nat :: k < bits && Bit(v1, k) != Bit(v2, k))
    && (forall k: nat :: k < bits && Bit(v1, k) != Bit(v2, k) ==> lo <= k < lo + width)
  }

  /** The highest bit position below `bits` at which two messages differ. */
  lemma {:induction false} HighestDifference(v1: int, v2: int, bits: nat) returns (top: nat)
    requires exists k: nat :: k < bits && Bit(v1, k) != Bit(v2, k)
    ensures top < bits && Bit(v1, top) != Bit(v2, top)
    ensures SameBitsFrom(v1, v2, top + 1, bits)
  {
    if Bit(v1, bits - 1) != Bit(v2, bits - 1) {
      top := bits - 1;
    } else {
      top := HighestDifference(v1, v2, bits - 1);
    }
  }

  lemma RegistersDiffer(v1: int, v2: int, bits: nat, lo: int, width: nat, polynomial: int, init: int)
    requires width > 0 && Odd(polynomial)
    requires Burst(v1, v2, bits, lo, width)
    ensures !AgreeLow(Register(v1, bits, bits, width, polynomial, init), Register(v2, bits, bits, width, polynomial, init), width)
  {
    if AgreeLow(Register(v1, bits, bits, width, polynomial, init), Register(v2, bits, bits, width, polynomial, init), width) {
      var top := HighestDifference(v1, v2, bits);
      var first := bits - 1 - top;
      var after := if first + width <= bits then first + width else bits;
      forall k: nat | k < bits - after ensures Bit(v1, k) == Bit(v2, k) {}
      UnwindTail(v1, v2, bits, bits, after, width, polynomial, init);
      UnwindWindow(v1, v2, bits, after, first + 1, width, width, polynomial, init);
      SamePrefix(v1, v2, bits, first, width, polynomial, init);
      var a := Register(v1, bits, first, width, polynomial, init);
      BitOfAnd(polynomial, Mask(width), 0);
      BitOfMask(width, 0);
      MessageBitIs(v1, bits, first);
      MessageBitIs(v2, bits, first);
      TurnBack(a, MessageBit(v1, bits, first), a, MessageBit(v2, bits, first), width, And(polynomial, Mask(width)), 1);
    }
  }

  // ----- registers stay within the mask, so the final stage is injective -----

  lemma {:induction false} RegisterFits(value: int, bits: int, n: nat, width: nat, polynomial: int, init: int, k: nat)
    requires width > 0 && (n == 0 || n <= bits) && k >= width
    ensures !Bit(Register(value, bits, n, width, polynomial, init), k)
  {
    BitOfMask(width, k);
    if n == 0 {
      BitOfAnd(init, Mask(width), k);
    } else {
      var crc := Register(value, bits, n - 1, width, polynomial, init);
      BitOfAnd(Shl(crc, 1), Mask(width), k);
      BitOfAnd(polynomial, Mask(width), k);
      BitOfXor(And(Shl(crc, 1), Mask(width)), And(polynomial, Mask(width)), k);
    }
  }

  lemma BitOfFinish(crc: int, width: nat, xorValue: int, invert: bool, k: nat)
    requires k < width
    ensures Bit(Finish(crc, width, xorValue, invert), k) == ((Bit(crc, k) != Bit(xorValue, k)) != invert)
  {
    var mixed := Xor(crc, And(xorValue, Mask(width)));
    BitOfMask(width, k);
    BitOfAnd(xorValue, Mask(width), k);
    BitOfXor(crc, And(xorValue, Mask(width)), k);
    BitOfNot(mixed, k);
    BitOfAnd(Not(mixed), Mask(width), k);
    BitOfAnd(if invert then And(Not(mixed), Mask(width)) else mixed, Mask(width), k);
  }

  /** Every burst of at most `crcBits` bits changes the checksum, whatever the initial value,
      final xor and inversion, as long as the polynomial is odd. */
  lemma OddPolynomialDetectsBursts(v1: int, v2: int, bits: nat, lo: int, crcBits: nat, polynomial: int,
                                   init: int, xorValue: int, invert: bool)
    requires crcBits > 0 && Odd(polynomial)
    requires Burst(v1, v2, bits, lo, crcBits)
    ensures CrcOf(v1, bits, crcBits, polynomial, init, xorValue, invert)
         != CrcOf(v2, bits, crcBits, polynomial, init, xorValue, invert)
  {
    RegistersDiffer(v1, v2, bits, lo, crcBits, polynomial, init);
    var a, b := Register(v1, bits, bits, crcBits, polynomial, init), Register(v2, bits, bits, crcBits, polynomial, init);
    var k: nat :| k < crcBits && Bit(a, k) != Bit(b, k);
    BitOfFinish(a, crcBits, xorValue, invert, k);
    BitOfFinish(b, crcBits, xorValue, invert, k);
  }

  // ----- an even polynomial always misses some burst -----

  lemma {:induction false} ShrAppend(v: int, bit: int, s: nat)
    requires bit == 0 || bit == 1
    ensures Shr(2 * v + bit, s + 1) == Shr(v, s)
  {
  }

  /** Appending a bit to a message does not change the register on the old bits. */
  lemma {:induction false} RegisterOfLonger(v: int, bit: int, bits: nat, n: nat, width: nat, polynomial: int, init: int)
    requires width > 0 && n <= bits && (bit == 0 || bit == 1)
    ensures Register(2 * v + bit, bits + 1, n, width, polynomial, init) == Register(v, bits, n, width, polynomial, init)
  {
    if n > 0 {
      RegisterOfLonger(v, bit, bits, n - 1, width, polynomial, init);
      ShrAppend(v, bit, bits - n);
    }
  }

  /** The register after n + 1 bits of a message with one more bit appended. */
  lemma RegisterAppend(v: int, bit: int, n: nat, width: nat, polynomial: int, init: int)
    requires width > 0 && (bit == 0 || bit == 1)
    ensures Register(2 * v + bit, n + 1, n + 1, width, polynomial, init)
         == Feed(Register(v, n, n, width, polynomial, init), bit == 1, width, And(polynomial, Mask(width)))
  {
    RegisterOfLonger(v, bit, n, n, width, polynomial, init);
    MessageBitIs(2 * v + bit, n + 1, n);
  }

  /** A message of m bits, differing from 0 in its top bit, whose register differs from that of 0
      exactly by the polynomial shifted up by m - 1. */
  lemma {:induction false} CancellingMessage(m: nat, width: nat, polynomial: int, init: int) returns (v: int)
    requires 0 < m <= width
    ensures Bit(v, m - 1)
    ensures forall k: nat :: k >= m ==> !Bit(v, k)
    ensures forall k: nat :: k < width ==>
      (Bit(Register(0, m, m, width, polynomial, init), k) != Bit(Register(v, m, m, width, polynomial, init), k))
      == (k >= m - 1 && Bit(polynomial, k - (m - 1)))
  {
    var poly := And(polynomial, Mask(width));
    if m == 1 {
      v := 1;
      var c := Register(0, 0, 0, width, polynomial, init);
      RegisterAppend(0, 0, 0, width, polynomial, init);
      RegisterAppend(0, 1, 0, width, polynomial, init);
      forall k: nat | k < width
        ensures (Bit(Feed(c, false, width, poly), k) != Bit(Feed(c, true, width, poly), k)) == Bit(polynomial, k) {
        BitsOfFeed(c, false, width, poly, k);
        BitsOfFeed(c, true, width, poly, k);
        BitOfAnd(polynomial, Mask(width), k);
        BitOfMask(width, k);
      }
      forall k: nat | k > 0 ensures !Bit(1, k) { BitOfConst(k - 1); }
    } else {
      var n := m - 1;
      var u := CancellingMessage(n, width, polynomial, init);
      var a, b := Register(0, n, n, width, polynomial, init), Register(u, n, n, width, polynomial, init);
      var bit := if Bit(a, width - 1) == Bit(b, width - 1) then 0 else 1;
      v := 2 * u + bit;
      assert v / 2 == u;
      RegisterAppend(0, 0, n, width, polynomial, init);
      RegisterAppend(u, bit, n, width, polynomial, init);
      forall k: nat | k < width
        ensures (Bit(Feed(a, false, width, poly), k) != Bit(Feed(b, bit == 1, width, poly), k))
             == (k >= n && Bit(polynomial, k - n)) {
        BitsOfFeed(a, false, width, poly, k);
        BitsOfFeed(b, bit == 1, width, poly, k);
        if k > 0 {
          assert (Bit(a, k - 1) != Bit(b, k - 1)) == (k - 1 >= n - 1 && Bit(polynomial, k - 1 - (n - 1)));
        }
      }
      forall k: nat | k > n ensures !Bit(v, k) { assert !Bit(u, k - 1); }
    }
  }

  /** The converse: with an even polynomial some burst of exactly `crcBits` bits goes unnoticed. */
  lemma EvenPolynomialMissesABurst(crcBits: nat, polynomial: int, init: int, xorValue: int, invert: bool)
    requires crcBits > 0 && !Odd(polynomial)
    ensures exists v: int :: Burst(0, v, crcBits, 0, crcBits)
                          && CrcOf(0, crcBits, crcBits, polynomial, init, xorValue, invert)
                          == CrcOf(v, crcBits, crcBits, polynomial, init, xorValue, invert)
  {
    var w := crcBits;
    var v := CancellingMessage(w, w, polynomial, init);
    var a, b := Register(0, w, w, w, polynomial, init), Register(v, w, w, w, polynomial, init);
    forall k: nat ensures Bit(a, k) == Bit(b, k) {
      if k >= w {
        RegisterFits(0, w, w, w, polynomial, init, k);
        RegisterFits(v, w, w, w, polynomial, init, k);
      } else if k == w - 1 {
        assert (Bit(a, k) != Bit(b, k)) == Bit(polynomial, k - (w - 1));
      }
    }
    BitsDetermine(a, b);
    BitOfConst(w - 1);
    assert Bit(0, w - 1) != Bit(v, w - 1);
    assert Burst(0, v, w, 0, w);
  }

  ghost predicate DetectsBursts(crcBits: nat, polynomial: int, init: int, xorValue: int, invert: bool) {
    forall v1: int, v2: int, bits: nat, lo: int :: Burst(v1, v2, bits, lo, crcBits) ==>
      CrcOf(v1, bits, crcBits, polynomial, init, xorValue, invert)
      != CrcOf(v2, bits, crcBits, polynomial, init, xorValue, invert)
  }

  /** A CRC notices every burst no longer than itself exactly when its polynomial is odd. */
  lemma BurstsDetectedIffOdd(crcBits: nat, polynomial: int, init: int, xorValue: int, invert: bool)
    requires crcBits > 0
    ensures DetectsBursts(crcBits, polynomial, init, xorValue, invert) <==> Odd(polynomial)
  {
    if Odd(polynomial) {
      forall v1: int, v2: int, bits: nat, lo: int | Burst(v1, v2, bits, lo, crcBits)
        ensures CrcOf(v1, bits, crcBits, polynomial, init, xorValue, invert)
             != CrcOf(v2, bits, crcBits, polynomial, init, xorValue, invert) {
        OddPolynomialDetectsBursts(v1, v2, bits, lo, crcBits, polynomial, init, xorValue, invert);
      }
    } else {
      EvenPolynomialMissesABurst(crcBits, polynomial, init, xorValue, invert);
    }
  }
}
