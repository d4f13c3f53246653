/** The CRC register against its textbook definition: the remainder of a division of polynomials over GF(2). A number stands for the
    polynomial whose coefficients are its bits. */
module BissRemainder {
  import opened Bits
  import opened BissCrc

  // ----- polynomials -----

  /** The product of two polynomials. */
  function Product(q: nat, g: int): int {
    if q == 0 then 0 else Xor(if q % 2 == 1 then g else 0, Shl(Product(q / 2, g), 1))
  }

  lemma BitOfProduct(q: nat, g: int, k: nat)
    ensures Bit(Product(q, g), k) == ((q % 2 == 1 && Bit(g, k)) != (k > 0 && Bit(Product(q / 2, g), k - 1)))
  {
    BitOfConst(k);
    if q == 0 {
      if k > 0 { BitOfConst(k - 1); }
    } else {
      BitOfXor(if q % 2 == 1 then g else 0, Shl(Product(q / 2, g), 1), k);
      BitOfShl(Product(q / 2, g), 1, k);
    }
  }

  /** Products of the same polynomial add up. */
  lemma {:induction false} ProductsAdd(p: nat, q: nat, r: nat, g: int, k: nat)
    requires forall i: nat :: Bit(r, i) == (Bit(p, i) != Bit(q, i))
    ensures Bit(Product(r, g), k) == (Bit(Product(p, g), k) != Bit(Product(q, g), k))
    decreases k
  {
    BitOfProduct(p, g, k);
    BitOfProduct(q, g, k);
    BitOfProduct(r, g, k);
    assert Bit(r, 0) == (Bit(p, 0) != Bit(q, 0));
    if k > 0 {
      forall i: nat ensures Bit(r / 2, i) == (Bit(p / 2, i) != Bit(q / 2, i)) {
        assert Bit(r, i + 1) == (Bit(p, i + 1) != Bit(q, i + 1));
      }
      ProductsAdd(p / 2, q / 2, r / 2, g, k - 1);
    }
  }

  /** The polynomial has degree w. */
  ghost predicate HasDegree(g: int, w: nat) {
    Bit(g, w) && forall k: nat :: k > w ==> !Bit(g, k)
  }

  /** Degrees add up: a product that is not zero has no smaller degree than its factor. */
  lemma {:induction false} DegreeOfProduct(q: nat, g: int, w: nat) returns (d: nat)
    requires q > 0 && HasDegree(g, w)
    ensures d >= w && HasDegree(Product(q, g), d)
  {
    if q / 2 == 0 {
      d := w;
      forall k: nat ensures Bit(Product(q, g), k) == Bit(g, k) {
        BitOfProduct(q, g, k);
        if k > 0 { BitOfConst(k - 1); }
      }
    } else {
      var c := DegreeOfProduct(q / 2, g, w);
      d := c + 1;
      forall k: nat | k >= d ensures Bit(Product(q, g), k) == (k == d) {
        BitOfProduct(q, g, k);
      }
    }
  }

  // ----- the division -----

  /** x^width and the coefficients of the polynomial below it. */
  function Generator(polynomial: int, width: nat): int { Or(Pow2(width), And(polynomial, Mask(width))) }

  /** The message, followed by `width` zeros, with the initial value added to its first bits. */
  function Dividend(value: int, bits: nat, width: nat, init: int): int {
    Xor(Shl(And(init, Mask(width)), bits), Shl(And(value, Mask(bits)), width))
  }

  lemma BitOfGenerator(polynomial: int, width: nat, k: nat)
    ensures Bit(Generator(polynomial, width), k) == (k == width || (k < width && Bit(polynomial, k)))
  {
    BitOfPow2(width, k);
    BitOfMask(width, k);
    BitOfAnd(polynomial, Mask(width), k);
    BitOfOr(Pow2(width), And(polynomial, Mask(width)), k);
  }

  lemma GeneratorDegree(polynomial: int, width: nat)
    ensures HasDegree(Generator(polynomial, width), width)
  {
    BitOfGenerator(polynomial, width, width);
    forall k: nat | k > width ensures !Bit(Generator(polynomial, width), k) { BitOfGenerator(polynomial, width, k); }
  }

  /** The k-th bit of the dividend made of the first n message bits. */
  ghost predicate DividendBit(value: int, bits: nat, n: nat, width: nat, init: int, k: nat)
    requires n <= bits
  {
    (n <= k < n + width && Bit(init, k - n)) != (width <= k < width + n && Bit(value, k - width + (bits - n)))
  }

  lemma BitOfDividend(value: int, bits: nat, width: nat, init: int, k: nat)
    ensures Bit(Dividend(value, bits, width, init), k) == DividendBit(value, bits, bits, width, init, k)
  {
    BitOfShl(And(init, Mask(width)), bits, k);
    BitOfShl(And(value, Mask(bits)), width, k);
    BitOfXor(Shl(And(init, Mask(width)), bits), Shl(And(value, Mask(bits)), width), k);
    if k >= bits {
      BitOfAnd(init, Mask(width), k - bits);
      BitOfMask(width, k - bits);
    }
    if k >= width {
      BitOfAnd(value, Mask(bits), k - width);
      BitOfMask(bits, k - width);
    }
  }

  lemma DividendGrows(value: int, bits: nat, n: nat, width: nat, init: int, k: nat)
    requires n < bits
    ensures DividendBit(value, bits, n + 1, width, init, k)
         == ((k > 0 && DividendBit(value, bits, n, width, init, k - 1)) != (k == width && Bit(value, bits - 1 - n)))
  {
  }

  /** After n bits the register is what is left of the dividend so far: quotient times generator, plus the register. */
  ghost predicate Divided(value: int, bits: nat, n: nat, width: nat, polynomial: int, init: int, q: nat)
    requires n <= bits && width > 0
  {
    forall k: nat :: DividendBit(value, bits, n, width, init, k)
      == (Bit(Product(q, Generator(polynomial, width)), k) != Bit(Register(value, bits, n, width, polynomial, init), k))
  }

  lemma {:induction false} Divide(value: int, bits: nat, n: nat, width: nat, polynomial: int, init: int) returns (q: nat)
    requires n <= bits && width > 0
    ensures Divided(value, bits, n, width, polynomial, init, q)
  {
    if n == 0 {
      q := 0;
      forall k: nat ensures DividendBit(value, bits, 0, width, init, k)
        == (Bit(Product(0, Generator(polynomial, width)), k) != Bit(Register(value, bits, 0, width, polynomial, init), k)) {
        BitOfConst(k);
        BitOfMask(width, k);
        BitOfAnd(init, Mask(width), k);
      }
    } else {
      var p := Divide(value, bits, n - 1, width, polynomial, init);
      var reg, bit := Register(value, bits, n - 1, width, polynomial, init), Bit(value, bits - n);
      var feedback := bit != Bit(reg, width - 1);
      q := 2 * p + if feedback then 1 else 0;
      assert q / 2 == p && (q % 2 == 1 <==> feedback);
      forall k: nat ensures DividendBit(value, bits, n, width, init, k)
        == (Bit(Product(q, Generator(polynomial, width)), k) != Bit(Register(value, bits, n, width, polynomial, init), k)) {
        DivideStep(value, bits, n, width, polynomial, init, p, q, k);
      }
    }
  }

  lemma DivideStep(value: int, bits: nat, n: nat, width: nat, polynomial: int, init: int, p: nat, q: nat, k: nat)
    requires 0 < n <= bits && width > 0 && Divided(value, bits, n - 1, width, polynomial, init, p)
    requires q / 2 == p
    requires q % 2 == 1 <==> Bit(value, bits - n) != Bit(Register(value, bits, n - 1, width, polynomial, init), width - 1)
    ensures DividendBit(value, bits, n, width, init, k)
      == (Bit(Product(q, Generator(polynomial, width)), k) != Bit(Register(value, bits, n, width, polynomial, init), k))
  {
    var g, reg := Generator(polynomial, width), Register(value, bits, n - 1, width, polynomial, init);
    DividendGrows(value, bits, n - 1, width, init, k);
    BitOfProduct(q, g, k);
    BitOfGenerator(polynomial, width, k);
    if k > 0 {
      assert DividendBit(value, bits, n - 1, width, init, k - 1) == (Bit(Product(p, g), k - 1) != Bit(reg, k - 1));
    }
    RegisterStep(value, bits, n, width, polynomial, init, k);
    if k > width { RegisterFits(value, bits, n - 1, width, polynomial, init, k - 1); }
  }

  lemma RegisterStep(value: int, bits: nat, n: nat, width: nat, polynomial: int, init: int, k: nat)
    requires 0 < n <= bits && width > 0
    ensures var reg := Register(value, bits, n - 1, width, polynomial, init);
            Bit(Register(value, bits, n, width, polynomial, init), k)
            == (k < width && ((k > 0 && Bit(reg, k - 1))
                              != ((Bit(value, bits - n) != Bit(reg, width - 1)) && Bit(polynomial, k))))
  {
    var reg := Register(value, bits, n - 1, width, polynomial, init);
    MessageBitIs(value, bits, n - 1);
    if k < width {
      BitOfMask(width, k);
      BitOfAnd(polynomial, Mask(width), k);
      BitsOfFeed(reg, MessageBit(value, bits, n - 1), width, And(polynomial, Mask(width)), k);
    } else {
      RegisterFits(value, bits, n, width, polynomial, init, k);
    }
  }

  // ----- the checksum -----

  /** The remainder of the division by a polynomial of degree w. */
  ghost predicate IsRemainder(r: int, dividend: int, g: int, w: nat) {
    0 <= r < Pow2(w) && exists q: nat :: Xor(Product(q, g), r) == dividend
  }

  lemma SumOf(a: int, b: int) returns (s: int)
    ensures s == Xor(a, b) && forall k: nat :: Bit(s, k) == (Bit(a, k) != Bit(b, k))
  {
    s := Xor(a, b);
    forall k: nat ensures Bit(s, k) == (Bit(a, k) != Bit(b, k)) { BitOfXor(a, b, k); }
  }

  /** There is just one. */
  lemma RemainderIsUnique(r: int, s: int, dividend: int, g: int, w: nat)
    requires HasDegree(g, w) && IsRemainder(r, dividend, g, w) && IsRemainder(s, dividend, g, w)
    ensures r == s
  {
    var p: nat :| Xor(Product(p, g), r) == dividend;
    var q: nat :| Xor(Product(q, g), s) == dividend;
    var both := SumOf(p, q);
    XorIsNat(p, q);
    forall k: nat ensures Bit(Product(both, g), k) == (Bit(r, k) != Bit(s, k)) {
      ProductsAdd(p, q, both, g, k);
      BitOfXor(Product(p, g), r, k);
      BitOfXor(Product(q, g), s, k);
    }
    HighBitsClear(r, w);
    HighBitsClear(s, w);
    if both > 0 {
      var d := DegreeOfProduct(both, g, w);
      assert false;
    } else {
      forall k: nat ensures Bit(r, k) == Bit(s, k) { BitOfConst(k); }
      BitsDetermine(r, s);
    }
  }

  lemma XorIsNat(p: nat, q: nat)
    ensures Xor(p, q) >= 0
  {
    var n := Width(p, q);
    HighBitsClear(p, n);
    HighBitsClear(q, n);
    forall k: nat | k >= n ensures !Bit(Xor(p, q), k) { BitOfXor(p, q, k); }
    FitsWhenHighBitsClear(Xor(p, q), n);
  }

  lemma {:induction false} Width(p: nat, q: nat) returns (n: nat)
    ensures p < Pow2(n) && q < Pow2(n)
    decreases p + q
  {
    if p + q == 0 {
      n := 0;
    } else {
      n := Width(p / 2, q / 2);
      n := n + 1;
    }
  }

  lemma RegisterIsRemainder(value: int, bits: nat, width: nat, polynomial: int, init: int)
    requires width > 0
    ensures IsRemainder(Register(value, bits, bits, width, polynomial, init), Dividend(value, bits, width, init),
                        Generator(polynomial, width), width)
  {
    var g, r := Generator(polynomial, width), Register(value, bits, bits, width, polynomial, init);
    var q := Divide(value, bits, bits, width, polynomial, init);
    forall k: nat | k >= width ensures !Bit(r, k) { RegisterFits(value, bits, bits, width, polynomial, init, k); }
    FitsWhenHighBitsClear(r, width);
    var sum := Xor(Product(q, g), r);
    forall k: nat ensures Bit(sum, k) == Bit(Dividend(value, bits, width, init), k) {
      BitOfXor(Product(q, g), r, k);
      BitOfDividend(value, bits, width, init, k);
    }
    BitsDetermine(sum, Dividend(value, bits, width, init));
  }

  /** The checksum is the remainder of the message, padded with zeros and started with the initial value, divided by the generator
      polynomial, with the final xor and the inversion applied to its bits: and that remainder is the only one there is. */
  lemma ChecksumIsRemainder(value: int, bits: nat, crcBits: nat, polynomial: int, init: int, xorValue: int, invert: bool, r: int)
    requires crcBits > 0
    ensures IsRemainder(r, Dividend(value, bits, crcBits, init), Generator(polynomial, crcBits), crcBits)
       <==> r == Register(value, bits, bits, crcBits, polynomial, init)
    ensures IsRemainder(r, Dividend(value, bits, crcBits, init), Generator(polynomial, crcBits), crcBits) ==>
              forall k: nat :: Bit(CrcOf(value, bits, crcBits, polynomial, init, xorValue, invert), k)
                == (k < crcBits && ((Bit(r, k) != Bit(xorValue, k)) != invert))
  {
    var reg := Register(value, bits, bits, crcBits, polynomial, init);
    RegisterIsRemainder(value, bits, crcBits, polynomial, init);
    GeneratorDegree(polynomial, crcBits);
    if IsRemainder(r, Dividend(value, bits, crcBits, init), Generator(polynomial, crcBits), crcBits) {
      RemainderIsUnique(r, reg, Dividend(value, bits, crcBits, init), Generator(polynomial, crcBits), crcBits);
      forall k: nat ensures Bit(CrcOf(value, bits, crcBits, polynomial, init, xorValue, invert), k)
        == (k < crcBits && ((Bit(r, k) != Bit(xorValue, k)) != invert)) {
        FinishedBit(reg, crcBits, xorValue, invert, k);
      }
    }
  }

  lemma FinishedBit(crc: int, width: nat, xorValue: int, invert: bool, k: nat)
    ensures Bit(Finish(crc, width, xorValue, invert), k) == (k < width && ((Bit(crc, k) != Bit(xorValue, k)) != invert))
  {
    if k < width {
      BitOfFinish(crc, width, xorValue, invert, k);
    } else {
      var mixed := Xor(crc, And(xorValue, Mask(width)));
      BitOfMask(width, k);
      BitOfAnd(if invert then And(Not(mixed), Mask(width)) else mixed, Mask(width), k);
    }
  }
}
