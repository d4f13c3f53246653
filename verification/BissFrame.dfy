/** BiSS frames: MSB-first bit fields, frame construction and the per-frame checks. */
module BissFrame {
  import opened Outcomes
  import opened Bits
  import opened BissCrc

  /** The field layout the generator and the validator agree on. */
  datatype Layout = Layout(
    frameBits: int,
    positionOffset: int, positionBits: int,
    anchorOffset: int, anchorBits: int, anchorValue: int,
    errorBit: int, warningBit: int,
    crcOffset: int, crcBits: int,
    crcCoverOffset: int, crcCoverBits: int,
    crcPolynomial: int, crcInit: int, crcXor: int, crcInvert: bool)

  function PutBitsMsb(frame: int, frameBits: int, offset: int, bits: int, value: int): Outcome<int> {
    if bits <= 0 then Value(frame)
    else
      var shift := frameBits - offset - bits;
      var mask := Mask(bits);
      if shift < 0 then Raised(NegativeShift)
      else Value(Or(And(frame, Not(Shl(mask, shift))), Shl(And(value, mask), shift)))
  }

  function ExtractBitsMsb(frame: int, frameBits: int, offset: int, bits: int): Outcome<int> {
    if bits <= 0 then Value(0)
    else
      var shift := frameBits - offset - bits;
      if shift < 0 then Raised(NegativeShift)
      else Value(And(Shr(frame, shift), Mask(bits)))
  }

  predicate CrcEnabled(l: Layout) { l.crcOffset >= 0 && l.crcBits > 0 }

  function CrcComputeFrame(l: Layout, frame: int): Outcome<int> {
    if l.crcOffset < 0 || l.crcBits <= 0 || l.crcCoverBits <= 0 then Value(0)
    else
      var covered :- ExtractBitsMsb(frame, l.frameBits, l.crcCoverOffset, l.crcCoverBits);
      Value(CrcOf(covered, l.crcCoverBits, l.crcBits, l.crcPolynomial, l.crcInit, l.crcXor, l.crcInvert))
  }

  function BuildFrame(l: Layout, position: int): Outcome<int> {
    var f1 :- PutBitsMsb(0, l.frameBits, l.anchorOffset, l.anchorBits, l.anchorValue);
    var f2 :- PutBitsMsb(f1, l.frameBits, l.positionOffset, l.positionBits, position);
    var f3 :- if l.errorBit >= 0 then PutBitsMsb(f2, l.frameBits, l.errorBit, 1, 1) else Value(f2);
    var f4 :- if l.warningBit >= 0 then PutBitsMsb(f3, l.frameBits, l.warningBit, 1, 1) else Value(f3);
    if CrcEnabled(l) then
      var f5 :- PutBitsMsb(f4, l.frameBits, l.crcOffset, l.crcBits, 0);
      var crc :- CrcComputeFrame(l, f5);
      PutBitsMsb(f5, l.frameBits, l.crcOffset, l.crcBits, crc)
    else Value(f4)
  }

  function CrcMatches(frame: int, l: Layout): Outcome<bool> {
    if l.crcOffset < 0 || l.crcBits <= 0 then Value(true)
    else
      var covered :- ExtractBitsMsb(frame, l.frameBits, l.crcCoverOffset, l.crcCoverBits);
      var expected := CrcOf(covered, l.crcCoverBits, l.crcBits, l.crcPolynomial, l.crcInit, l.crcXor, l.crcInvert);
      var actual :- ExtractBitsMsb(frame, l.frameBits, l.crcOffset, l.crcBits);
      Value(expected == actual)
  }

  // ----- fields -----

  datatype Field = Field(offset: int, bits: int)

  ghost predicate InFrame(l: Layout, f: Field) {
    f.bits > 0 ==> 0 <= f.offset && f.offset + f.bits <= l.frameBits
  }

  ghost predicate Apart(f: Field, g: Field) {
    f.bits <= 0 || g.bits <= 0 || f.offset + f.bits <= g.offset || g.offset + g.bits <= f.offset
  }

  function Anchor(l: Layout): Field { Field(l.anchorOffset, l.anchorBits) }
  function Position(l: Layout): Field { Field(l.positionOffset, l.positionBits) }
  function StatusField(bit: int): Field { Field(bit, if bit >= 0 then 1 else 0) }
  function CrcField(l: Layout): Field { Field(l.crcOffset, if l.crcOffset >= 0 then l.crcBits else 0) }
  function Cover(l: Layout): Field { Field(l.crcCoverOffset, l.crcCoverBits) }

  function Fields(l: Layout): seq<Field> {
    [Anchor(l), Position(l), StatusField(l.errorBit), StatusField(l.warningBit), CrcField(l)]
  }

  /** The fields lie in the frame and no two overlap; an enabled CRC covers bits outside its own field. */
  ghost predicate WellFormed(l: Layout) {
    && (forall i :: 0 <= i < 5 ==> InFrame(l, Fields(l)[i]))
    && (forall i, j :: 0 <= i < j < 5 ==> Apart(Fields(l)[i], Fields(l)[j]))
    && (CrcEnabled(l) ==> InFrame(l, Cover(l)) && Apart(Cover(l), CrcField(l)))
  }

  /** The value a reader finds in field f. */
  function Read(l: Layout, frame: int, f: Field): Outcome<int> {
    ExtractBitsMsb(frame, l.frameBits, f.offset, f.bits)
  }

  function Write(l: Layout, frame: int, f: Field, value: int): Outcome<int> {
    PutBitsMsb(frame, l.frameBits, f.offset, f.bits, value)
  }

  /** What a field of b bits can hold of a value. */
  function Truncated(value: int, bits: int): int {
    if bits <= 0 then 0 else And(value, Mask(bits))
  }

  lemma BitOfWrite(l: Layout, frame: int, f: Field, value: int, k: nat)
    requires InFrame(l, f) && f.bits > 0
    ensures Write(l, frame, f, value).Value?
    ensures var shift := l.frameBits - f.offset - f.bits;
            Bit(Write(l, frame, f, value).value, k)
            == if shift <= k < shift + f.bits then Bit(value, k - shift) else Bit(frame, k)
  {
    var shift := l.frameBits - f.offset - f.bits;
    var mask := Mask(f.bits);
    BitOfShl(mask, shift, k);
    BitOfNot(Shl(mask, shift), k);
    BitOfAnd(frame, Not(Shl(mask, shift)), k);
    BitOfShl(And(value, mask), shift, k);
    BitOfOr(And(frame, Not(Shl(mask, shift))), Shl(And(value, mask), shift), k);
    if k >= shift {
      BitOfAnd(value, mask, k - shift);
      BitOfMask(f.bits, k - shift);
    }
  }

  lemma BitOfRead(l: Layout, frame: int, f: Field, k: nat)
    requires InFrame(l, f) && f.bits > 0
    ensures Read(l, frame, f).Value?
    ensures Bit(Read(l, frame, f).value, k) == (k < f.bits && Bit(frame, k + (l.frameBits - f.offset - f.bits)))
  {
    var shift := l.frameBits - f.offset - f.bits;
    BitOfShr(frame, shift, k);
    BitOfMask(f.bits, k);
    BitOfAnd(Shr(frame, shift), Mask(f.bits), k);
  }

  /** Reading back the field just written. */
  lemma ReadOwnWrite(l: Layout, frame: int, f: Field, value: int)
    requires InFrame(l, f)
    ensures Write(l, frame, f, value).Value?
    ensures Read(l, Write(l, frame, f, value).value, f) == Value(Truncated(value, f.bits))
  {
    if f.bits > 0 {
      var shift := l.frameBits - f.offset - f.bits;
      BitOfWrite(l, frame, f, value, 0);
      var after := Write(l, frame, f, value).value;
      BitOfRead(l, after, f, 0);
      var got := Read(l, after, f).value;
      forall k: nat ensures Bit(got, k) == Bit(Truncated(value, f.bits), k) {
        BitOfRead(l, after, f, k);
        BitOfWrite(l, frame, f, value, k + shift);
        BitOfAnd(value, Mask(f.bits), k);
        BitOfMask(f.bits, k);
      }
      BitsDetermine(got, Truncated(value, f.bits));
    }
  }

  /** Writing a field leaves every field apart from it as it was. */
  lemma ReadOtherWrite(l: Layout, frame: int, f: Field, value: int, g: Field)
    requires InFrame(l, f) && InFrame(l, g) && Apart(f, g)
    ensures Write(l, frame, f, value).Value?
    ensures Read(l, Write(l, frame, f, value).value, g) == Read(l, frame, g)
  {
    if f.bits > 0 && g.bits > 0 {
      BitOfWrite(l, frame, f, value, 0);
      var after := Write(l, frame, f, value).value;
      BitOfRead(l, after, g, 0);
      BitOfRead(l, frame, g, 0);
      var got, was := Read(l, after, g).value, Read(l, frame, g).value;
      forall k: nat ensures Bit(got, k) == Bit(was, k) {
        BitOfRead(l, after, g, k);
        BitOfRead(l, frame, g, k);
        BitOfWrite(l, frame, f, value, k + (l.frameBits - g.offset - g.bits));
      }
      BitsDetermine(got, was);
    } else if f.bits > 0 {
      BitOfWrite(l, frame, f, value, 0);
    }
  }

  ghost predicate Narrow(l: Layout, frame: int) {
    forall k: nat :: k >= l.frameBits ==> !Bit(frame, k)
  }

  lemma WriteStaysNarrow(l: Layout, frame: int, f: Field, value: int)
    requires InFrame(l, f) && Narrow(l, frame)
    ensures Write(l, frame, f, value).Value? && Narrow(l, Write(l, frame, f, value).value)
  {
    if f.bits > 0 {
      BitOfWrite(l, frame, f, value, 0);
      forall k: nat | k >= l.frameBits ensures !Bit(Write(l, frame, f, value).value, k) {
        BitOfWrite(l, frame, f, value, k);
      }
    }
  }

  // ----- frames read back what was put in -----

  /** The values the generator puts into the fields, in the order of `Fields`; the CRC is computed last. */
  function Contents(l: Layout, position: int, crc: int): seq<int> {
    [l.anchorValue, position, 1, 1, crc]
  }

  /** The frame after its first n fields have been written. */
  function Written(l: Layout, position: int, crc: int, n: nat): Outcome<int>
    requires n <= 5
  {
    if n == 0 then Value(0)
    else
      var before :- Written(l, position, crc, n - 1);
      Write(l, before, Fields(l)[n - 1], Contents(l, position, crc)[n - 1])
  }

  lemma {:induction false} WrittenReads(l: Layout, position: int, crc: int, n: nat)
    requires WellFormed(l) && n <= 5
    ensures Written(l, position, crc, n).Value? && Narrow(l, Written(l, position, crc, n).value)
    ensures forall i :: 0 <= i < n ==>
      Read(l, Written(l, position, crc, n).value, Fields(l)[i])
      == Value(Truncated(Contents(l, position, crc)[i], Fields(l)[i].bits))
  {
    if n == 0 {
      forall k: nat ensures !Bit(0, k) { BitOfConst(k); }
    } else {
      WrittenReads(l, position, crc, n - 1);
      var before := Written(l, position, crc, n - 1).value;
      var f, v := Fields(l)[n - 1], Contents(l, position, crc)[n - 1];
      assert InFrame(l, f);
      WriteStaysNarrow(l, before, f, v);
      ReadOwnWrite(l, before, f, v);
      forall i | 0 <= i < n - 1
        ensures Read(l, Write(l, before, f, v).value, Fields(l)[i]) == Read(l, before, Fields(l)[i]) {
        assert Apart(Fields(l)[i], Fields(l)[n - 1]);
        ReadOtherWrite(l, before, f, v, Fields(l)[i]);
      }
    }
  }

  /** The checksum the generator stores. */
  function StoredCrc(l: Layout, position: int): int {
    var f4 := Written(l, position, 0, 4);
    if f4.Raised? then 0
    else
      var f5 := Write(l, f4.value, CrcField(l), 0);
      if f5.Raised? then 0
      else
        var crc := CrcComputeFrame(l, f5.value);
        if crc.Raised? then 0 else crc.value
  }

  /** Overwriting a field twice leaves the second value. */
  lemma WriteTwice(l: Layout, frame: int, f: Field, u: int, v: int)
    requires InFrame(l, f)
    ensures Write(l, frame, f, u).Value?
    ensures Write(l, Write(l, frame, f, u).value, f, v) == Write(l, frame, f, v)
  {
    if f.bits > 0 {
      BitOfWrite(l, frame, f, u, 0);
      var once := Write(l, frame, f, u).value;
      BitOfWrite(l, once, f, v, 0);
      BitOfWrite(l, frame, f, v, 0);
      var a, b := Write(l, once, f, v).value, Write(l, frame, f, v).value;
      forall k: nat ensures Bit(a, k) == Bit(b, k) {
        BitOfWrite(l, frame, f, u, k);
        BitOfWrite(l, once, f, v, k);
        BitOfWrite(l, frame, f, v, k);
      }
      BitsDetermine(a, b);
    }
  }

  lemma WrittenIgnoresCrc(l: Layout, position: int, c1: int, c2: int)
    ensures Written(l, position, c1, 4) == Written(l, position, c2, 4)
  {
    assert Written(l, position, c1, 1) == Written(l, position, c2, 1);
    assert Written(l, position, c1, 2) == Written(l, position, c2, 2);
    assert Written(l, position, c1, 3) == Written(l, position, c2, 3);
  }

  /** On a well-formed layout the generator never raises and its frame is the five writes in a row. */
  lemma BuildIsWritten(l: Layout, position: int)
    requires WellFormed(l)
    ensures BuildFrame(l, position) == Written(l, position, StoredCrc(l, position), 5)
    ensures BuildFrame(l, position).Value?
  {
    var crc := StoredCrc(l, position);
    WrittenIgnoresCrc(l, position, 0, crc);
    WrittenReads(l, position, crc, 5);
    WrittenReads(l, position, crc, 4);
    var f4 := Written(l, position, crc, 4).value;
    assert InFrame(l, Fields(l)[4]);
    if CrcEnabled(l) {
      WriteTwice(l, f4, CrcField(l), 0, crc);
      var f5 := Write(l, f4, CrcField(l), 0).value;
      if l.crcCoverBits > 0 { BitOfRead(l, f5, Cover(l), 0); }
      ChainOfFour(l, position, crc);
    } else {
      ChainOfFour(l, position, crc);
    }
  }

  /** The first four writes, spelled out. */
  lemma ChainOfFour(l: Layout, position: int, crc: int)
    requires Written(l, position, crc, 4).Value?
    ensures !CrcEnabled(l) ==> BuildFrame(l, position) == Written(l, position, crc, 4)
    ensures CrcEnabled(l) ==> BuildFrame(l, position) == CrcTail(l, Written(l, position, crc, 4).value)
  {
    assert Written(l, position, crc, 3).Value?;
    assert Written(l, position, crc, 2).Value?;
    assert Written(l, position, crc, 1).Value?;
    var f1 := Written(l, position, crc, 1).value;
    assert f1 == PutBitsMsb(0, l.frameBits, l.anchorOffset, l.anchorBits, l.anchorValue).value by {
      assert Written(l, position, crc, 0) == Value(0);
    }
  }

  function CrcTail(l: Layout, f4: int): Outcome<int> {
    var f5 :- PutBitsMsb(f4, l.frameBits, l.crcOffset, l.crcBits, 0);
    var crc :- CrcComputeFrame(l, f5);
    PutBitsMsb(f5, l.frameBits, l.crcOffset, l.crcBits, crc)
  }

  lemma CrcFits(value: int, bits: int, crcBits: nat, polynomial: int, init: int, xorValue: int, invert: bool)
    requires crcBits > 0
    ensures var c := CrcOf(value, bits, crcBits, polynomial, init, xorValue, invert);
            0 <= c < Pow2(crcBits) && And(c, Mask(crcBits)) == c
  {
    var reg := Register(value, bits, Turns(bits), crcBits, polynomial, init);
    var mixed := Xor(reg, And(xorValue, Mask(crcBits)));
    LowBitsFit(if invert then And(Not(mixed), Mask(crcBits)) else mixed, crcBits);
    Fitting(CrcOf(value, bits, crcBits, polynomial, init, xorValue, invert), crcBits);
  }

  lemma Fitting(v: int, bits: nat)
    requires 0 <= v < Pow2(bits)
    ensures And(v, Mask(bits)) == v
  {
    HighBitsClear(v, bits);
    BitsOfMask(bits);
    BitsOfAnd(v, Mask(bits));
    BitsDetermine(And(v, Mask(bits)), v);
  }

  /** Every built frame yields back its anchor, its position and inactive status bits, and fits the frame. */
  lemma FrameRoundTrip(l: Layout, position: int)
    requires WellFormed(l)
    ensures BuildFrame(l, position).Value?
    ensures var frame := BuildFrame(l, position).value;
            && Read(l, frame, Anchor(l)) == Value(Truncated(l.anchorValue, l.anchorBits))
            && Read(l, frame, Position(l)) == Value(Truncated(position, l.positionBits))
            && (l.errorBit >= 0 ==> ExtractBitsMsb(frame, l.frameBits, l.errorBit, 1) == Value(1))
            && (l.warningBit >= 0 ==> ExtractBitsMsb(frame, l.frameBits, l.warningBit, 1) == Value(1))
            && (l.frameBits >= 0 ==> 0 <= frame < Pow2(l.frameBits))
  {
    var crc := StoredCrc(l, position);
    BuildIsWritten(l, position);
    WrittenReads(l, position, crc, 5);
    var frame := BuildFrame(l, position).value;
    assert Read(l, frame, Fields(l)[0]) == Value(Truncated(Contents(l, position, crc)[0], Fields(l)[0].bits));
    assert Read(l, frame, Fields(l)[1]) == Value(Truncated(Contents(l, position, crc)[1], Fields(l)[1].bits));
    assert Read(l, frame, Fields(l)[2]) == Value(Truncated(Contents(l, position, crc)[2], Fields(l)[2].bits));
    assert Read(l, frame, Fields(l)[3]) == Value(Truncated(Contents(l, position, crc)[3], Fields(l)[3].bits));
    Fitting(1, 1);
    if l.frameBits >= 0 { FitsWhenHighBitsClear(frame, l.frameBits); }
  }

  /** The validator accepts the checksum of a built frame exactly when the cover is not empty, or the
      checksum of an empty message happens to be the 0 the generator stores in that case. */
  lemma BuiltFramePassesCrc(l: Layout, position: int)
    requires WellFormed(l) && BuildFrame(l, position).Value?
    ensures CrcMatches(BuildFrame(l, position).value, l).Value?
    ensures CrcMatches(BuildFrame(l, position).value, l).value <==>
      (CrcEnabled(l) && l.crcCoverBits <= 0 ==>
         CrcOf(0, 0, l.crcBits, l.crcPolynomial, l.crcInit, l.crcXor, l.crcInvert) == 0)
  {
    if CrcEnabled(l) {
      var crc := StoredCrc(l, position);
      BuildIsWritten(l, position);
      WrittenIgnoresCrc(l, position, 0, crc);
      WrittenReads(l, position, crc, 4);
      WrittenReads(l, position, crc, 5);
      var f4 := Written(l, position, crc, 4).value;
      assert InFrame(l, Fields(l)[4]);
      ReadOtherWrite(l, f4, CrcField(l), 0, Cover(l));
      ReadOtherWrite(l, f4, CrcField(l), crc, Cover(l));
      var frame := BuildFrame(l, position).value;
      assert Read(l, frame, Fields(l)[4]) == Value(Truncated(Contents(l, position, crc)[4], Fields(l)[4].bits));
      if l.crcCoverBits > 0 {
        BitOfRead(l, f4, Cover(l), 0);
        CrcFits(Read(l, f4, Cover(l)).value, l.crcCoverBits, l.crcBits, l.crcPolynomial, l.crcInit, l.crcXor, l.crcInvert);
      } else {
        assert crc == 0 && Truncated(0, l.crcBits) == 0;
      }
    }
  }

  // ----- the validator notices bursts -----

  /** A frame that passes the CRC check fails it after any burst of at most `crcBits` bits in the covered
      field, however the other bits outside the CRC field change. */
  lemma CorruptedFrameFailsCrc(l: Layout, good: int, bad: int, lo: int)
    requires CrcEnabled(l) && l.crcCoverBits > 0 && Odd(l.crcPolynomial)
    requires InFrame(l, Cover(l)) && InFrame(l, CrcField(l))
    requires CrcMatches(good, l) == Value(true)
    requires Read(l, bad, CrcField(l)) == Read(l, good, CrcField(l))
    requires Read(l, good, Cover(l)).Value? && Read(l, bad, Cover(l)).Value?
    requires Burst(Read(l, good, Cover(l)).value, Read(l, bad, Cover(l)).value, l.crcCoverBits, lo, l.crcBits)
    ensures CrcMatches(bad, l) == Value(false)
  {
    OddPolynomialDetectsBursts(Read(l, good, Cover(l)).value, Read(l, bad, Cover(l)).value, l.crcCoverBits, lo,
                               l.crcBits, l.crcPolynomial, l.crcInit, l.crcXor, l.crcInvert);
  }
}
