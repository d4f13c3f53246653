/** What the validator's verdict says of every frame it was given. */
module BissVerdict {
  import opened Outcomes
  import opened Bits
  import opened BissCrc
  import opened BissFrame
  import opened BissValidate

  // ----- when frames can be read at all -----

  /** The field does not begin past its own end, counted from the end of the frame. */
  predicate InReach(l: Layout, offset: int, bits: int) { bits > 0 ==> offset + bits <= l.frameBits }

  /** Every field the validator looks at can be read. */
  predicate Readable(l: Layout) {
    && InReach(l, l.anchorOffset, l.anchorBits) && InReach(l, l.positionOffset, l.positionBits)
    && (l.errorBit >= 0 ==> InReach(l, l.errorBit, 1)) && (l.warningBit >= 0 ==> InReach(l, l.warningBit, 1))
    && (CrcEnabled(l) ==> InReach(l, l.crcCoverOffset, l.crcCoverBits) && InReach(l, l.crcOffset, l.crcBits))
  }

  lemma ReadableIff(p: Profile, frame: int)
    ensures Inspect(p, frame).Value? <==> Readable(p.layout)
    ensures Inspect(p, frame).Raised? ==> Inspect(p, frame).error == NegativeShift
  {
    hide CrcOf, And, Shr, Mask;
  }

  lemma {:induction false} ViewsReadable(p: Profile, frames: seq<int>)
    ensures Views(p, frames).Value? <==> frames == [] || Readable(p.layout)
    ensures Views(p, frames).Raised? ==> Views(p, frames).error == NegativeShift
    ensures Views(p, frames).Value? ==> |Views(p, frames).value| == |frames|
                                        && forall i :: 0 <= i < |frames| ==> Inspect(p, frames[i]) == Value(Views(p, frames).value[i])
  {
    hide Inspect, Readable;
    if frames != [] {
      ViewsReadable(p, frames[..|frames| - 1]);
      ReadableIff(p, frames[|frames| - 1]);
    }
  }

  /** The validator raises exactly when there is a frame and a field it cannot read; what the frames hold plays no part. */
  lemma VerdictRaisesIff(p: Profile, frames: seq<int>, expectedPositions: seq<int>, expectedFrames: seq<int>)
    ensures var verdict := Verdict(p, frames, expectedPositions, expectedFrames);
            && (verdict.Raised? <==> frames != [] && !Readable(p.layout))
            && (verdict.Raised? ==> verdict.error == NegativeShift)
  {
    hide Readable, Inspect;
    ViewsReadable(p, frames);
  }

  // ----- what is seen of one frame -----

  /** Bit k, from the least significant on, of a field of the frame. */
  ghost predicate FieldBit(l: Layout, frame: int, offset: int, bits: int, k: nat)
    requires InReach(l, offset, bits)
  {
    k < bits && Bit(frame, k + (l.frameBits - offset - bits))
  }

  lemma ExtractedBit(l: Layout, frame: int, offset: int, bits: int, k: nat)
    requires InReach(l, offset, bits)
    ensures ExtractBitsMsb(frame, l.frameBits, offset, bits).Value?
    ensures Bit(ExtractBitsMsb(frame, l.frameBits, offset, bits).value, k) == FieldBit(l, frame, offset, bits, k)
  {
    if bits > 0 {
      var shift := l.frameBits - offset - bits;
      BitOfShr(frame, shift, k);
      BitOfMask(bits, k);
      BitOfAnd(Shr(frame, shift), Mask(bits), k);
    } else {
      BitOfConst(k);
    }
  }

  /** The two agree wherever the mask looks. */
  ghost predicate AgreeUnder(mask: int, a: int, b: int) { forall k: nat :: Bit(mask, k) ==> Bit(a, k) == Bit(b, k) }

  lemma SameUnderMask(a: int, b: int, mask: int)
    ensures And(a, mask) == And(b, mask) <==> AgreeUnder(mask, a, b)
  {
    hide And;
    if And(a, mask) == And(b, mask) {
      forall k: nat | Bit(mask, k) ensures Bit(a, k) == Bit(b, k) {
        BitOfAnd(a, mask, k);
        BitOfAnd(b, mask, k);
      }
    }
    if AgreeUnder(mask, a, b) {
      BitsOfAnd(a, mask);
      BitsOfAnd(b, mask);
      BitsDetermine(And(a, mask), And(b, mask));
    }
  }

  /** The anchor the frame carries is the expected one, wherever the mask looks. */
  ghost predicate AnchorAgrees(p: Profile, frame: int)
    requires Readable(p.layout)
  {
    var l := p.layout;
    l.anchorBits > 0 ==> forall k: nat :: Bit(p.anchorMask, k) ==> AnchorBitAgrees(p, frame, k)
  }

  ghost predicate AnchorBitAgrees(p: Profile, frame: int, k: nat)
    requires InReach(p.layout, p.layout.anchorOffset, p.layout.anchorBits)
  {
    Bit(p.layout.anchorValue, k) == FieldBit(p.layout, frame, p.layout.anchorOffset, p.layout.anchorBits, k)
  }

  lemma AnchorUnderMask(p: Profile, frame: int, anchor: int)
    requires Readable(p.layout) && p.layout.anchorBits > 0
    requires forall k: nat :: Bit(anchor, k) == FieldBit(p.layout, frame, p.layout.anchorOffset, p.layout.anchorBits, k)
    ensures AgreeUnder(p.anchorMask, anchor, p.layout.anchorValue) <==> AnchorAgrees(p, frame)
  {
    hide FieldBit;
    if AgreeUnder(p.anchorMask, anchor, p.layout.anchorValue) {
      forall k: nat | Bit(p.anchorMask, k) ensures AnchorBitAgrees(p, frame, k) {
      }
    }
    if AnchorAgrees(p, frame) {
      forall k: nat | Bit(p.anchorMask, k) ensures Bit(anchor, k) == Bit(p.layout.anchorValue, k) {
        assert AnchorBitAgrees(p, frame, k);
      }
    }
  }

  /** A status bit that is in use reads zero: status is active low. */
  ghost predicate StatusActive(l: Layout, frame: int)
    requires Readable(l)
  {
    (l.errorBit >= 0 && !Bit(frame, l.frameBits - 1 - l.errorBit)) || (l.warningBit >= 0 && !Bit(frame, l.frameBits - 1 - l.warningBit))
  }

  lemma AnchorIsSeen(p: Profile, frame: int)
    requires Readable(p.layout)
    ensures Inspect(p, frame).Value? && (Inspect(p, frame).value.anchorOk <==> AnchorAgrees(p, frame))
  {
    hide ExtractBitsMsb, And, CrcMatches, Bit, FieldBit;
    var l := p.layout;
    ReadableIff(p, frame);
    if l.anchorBits <= 0 {
      assert Inspect(p, frame).value.anchorOk;
    } else {
      ExtractedBit(l, frame, l.anchorOffset, l.anchorBits, 0);
      var anchor := ExtractBitsMsb(frame, l.frameBits, l.anchorOffset, l.anchorBits).value;
      SameUnderMask(anchor, l.anchorValue, p.anchorMask);
      forall k: nat ensures Bit(anchor, k) == FieldBit(l, frame, l.anchorOffset, l.anchorBits, k) {
        ExtractedBit(l, frame, l.anchorOffset, l.anchorBits, k);
      }
      AnchorUnderMask(p, frame, anchor);
      hide AnchorAgrees, AgreeUnder;
    }
  }

  lemma OneBitIsSeen(l: Layout, frame: int, bit: int)
    requires bit >= 0 && InReach(l, bit, 1)
    ensures ExtractBitsMsb(frame, l.frameBits, bit, 1) == Value(if Bit(frame, l.frameBits - 1 - bit) then 1 else 0)
  {
    var shift := l.frameBits - 1 - bit;
    BitOfShr(frame, shift, 0);
    AndOfOneBit(Shr(frame, shift));
  }

  lemma AndOfOneBit(v: int)
    ensures And(v, Mask(1)) == if Bit(v, 0) then 1 else 0
  {
    assert Pow2(1) == 2 && Mask(1) == 1;
    hide And, Pow2, Mask;
    LowBitsFit(v, 1);
    BitOfAnd(v, 1, 0);
  }

  lemma StatusIsSeen(p: Profile, frame: int)
    requires Readable(p.layout)
    ensures Inspect(p, frame).Value? && (Inspect(p, frame).value.statusActive <==> StatusActive(p.layout, frame))
    ensures Inspect(p, frame).value.statusBlocked <==> p.statusGate == Block && StatusActive(p.layout, frame)
  {
    var l := p.layout;
    ReadableIff(p, frame);
    hide ExtractBitsMsb, And, CrcMatches, Bit;
    if l.errorBit >= 0 { OneBitIsSeen(l, frame, l.errorBit); }
    if l.warningBit >= 0 { OneBitIsSeen(l, frame, l.warningBit); }
  }

  lemma PositionIsSeen(p: Profile, frame: int, k: nat)
    requires Readable(p.layout)
    ensures Inspect(p, frame).Value?
    ensures Bit(Inspect(p, frame).value.position, k) == FieldBit(p.layout, frame, p.layout.positionOffset, p.layout.positionBits, k)
    ensures Value(Inspect(p, frame).value.crcOk) == CrcMatches(frame, p.layout)
  {
    ReadableIff(p, frame);
    ExtractedBit(p.layout, frame, p.layout.positionOffset, p.layout.positionBits, k);
    hide ExtractBitsMsb, And, CrcMatches, Bit, FieldBit;
  }

  /** The frame fails its checksum. */
  ghost predicate BadCrc(l: Layout, frame: int) { CrcMatches(frame, l) == Value(false) }

  /** Everything the validator reads from a frame, bit by bit: its position is the position field; its anchor is in order
      when it agrees under the mask; status is active low, and blocks only behind the gate that says so. */
  lemma FrameIsSeen(p: Profile, frame: int)
    requires Readable(p.layout)
    ensures Inspect(p, frame).Value?
    ensures var v := Inspect(p, frame).value;
            && (forall k: nat :: Bit(v.position, k) == FieldBit(p.layout, frame, p.layout.positionOffset, p.layout.positionBits, k))
            && (v.anchorOk <==> AnchorAgrees(p, frame))
            && (v.statusActive <==> StatusActive(p.layout, frame))
            && (v.statusBlocked <==> p.statusGate == Block && StatusActive(p.layout, frame))
            && (v.crcOk <==> !BadCrc(p.layout, frame))
  {
    assert InReach(p.layout, p.layout.positionOffset, p.layout.positionBits);
    hide Inspect, Bit, FieldBit, Readable, CrcMatches;
    AnchorIsSeen(p, frame);
    StatusIsSeen(p, frame);
    PositionIsSeen(p, frame, 0);
    forall k: nat
      ensures Bit(Inspect(p, frame).value.position, k) == FieldBit(p.layout, frame, p.layout.positionOffset, p.layout.positionBits, k) {
      PositionIsSeen(p, frame, k);
    }
  }

  // ----- what is counted and what is reported -----

  /** The frames that fail their checksum, and those with an active status bit. */
  ghost function CrcErrors(views: seq<View>): set<nat> { set i: nat | i < |views| && !views[i].crcOk }

  ghost function StatusErrors(views: seq<View>): set<nat> { set i: nat | i < |views| && views[i].statusActive }

  ghost function AnchorErrors(views: seq<View>): set<nat> { set i: nat | i < |views| && !views[i].anchorOk }

  function Ones(count: bool): nat { if count then 1 else 0 }

  lemma ErrorsStep(views: seq<View>)
    requires views != []
    ensures var n := |views| - 1;
            && |CrcErrors(views)| == |CrcErrors(views[..n])| + Ones(!views[n].crcOk)
            && |StatusErrors(views)| == |StatusErrors(views[..n])| + Ones(views[n].statusActive)
            && |AnchorErrors(views)| == |AnchorErrors(views[..n])| + Ones(!views[n].anchorOk)
  {
    CrcErrorsStep(views);
    StatusErrorsStep(views);
    AnchorErrorsStep(views);
  }

  lemma CrcErrorsStep(views: seq<View>)
    requires views != []
    ensures var n := |views| - 1; |CrcErrors(views)| == |CrcErrors(views[..n])| + Ones(!views[n].crcOk)
  {
    var n := |views| - 1;
    assert CrcErrors(views) == CrcErrors(views[..n]) + if views[n].crcOk then {} else {n};
  }

  lemma StatusErrorsStep(views: seq<View>)
    requires views != []
    ensures var n := |views| - 1; |StatusErrors(views)| == |StatusErrors(views[..n])| + Ones(views[n].statusActive)
  {
    var n := |views| - 1;
    assert StatusErrors(views) == StatusErrors(views[..n]) + if views[n].statusActive then {n} else {};
  }

  lemma AnchorErrorsStep(views: seq<View>)
    requires views != []
    ensures var n := |views| - 1; |AnchorErrors(views)| == |AnchorErrors(views[..n])| + Ones(!views[n].anchorOk)
  {
    var n := |views| - 1;
    assert AnchorErrors(views) == AnchorErrors(views[..n]) + if views[n].anchorOk then {} else {n};
  }

  /** The tally of some frames: each count is the number of frames it counts, and each mismatch is listed once. */
  ghost predicate Tallies(t: Tally, views: seq<View>) {
    && t.report.frameCount == |views| == |t.report.positions|
    && (forall i :: 0 <= i < |views| ==> t.report.positions[i] == views[i].position)
    && t.report.crcErrorCount == |CrcErrors(views)| && t.report.statusBlockCount == |StatusErrors(views)|
    && |t.failures| == |CrcErrors(views)| + |AnchorErrors(views)|
  }

  ghost predicate Lists(failures: seq<Failure>, views: seq<View>) {
    forall f :: f in failures <==> Mismatch(f, views)
  }

  /** The failures of the frames themselves. */
  ghost predicate Mismatch(f: Failure, views: seq<View>) {
    match f
    case CrcMismatch(i) => i < |views| && !views[i].crcOk
    case AnchorMismatch(i, anchor) => i < |views| && !views[i].anchorOk && anchor == views[i].anchor
    case _ => false
  }

  lemma {:induction false} TallyTells(p: Profile, views: seq<View>)
    ensures Tallies(TallyOf(p, views), views)
    ensures Lists(TallyOf(p, views).failures, views)
  {
    if views != [] {
      var n := |views| - 1;
      var before := TallyOf(p, views[..n]);
      TallyTells(p, views[..n]);
      ErrorsStep(views);
      hide CrcErrors, StatusErrors, AnchorErrors;
      MismatchStep(before.failures, views);
    } else {
      assert CrcErrors(views) == {} && StatusErrors(views) == {} && AnchorErrors(views) == {};
    }
  }

  lemma MismatchStep(failures: seq<Failure>, views: seq<View>)
    requires views != [] && Lists(failures, views[..|views| - 1])
    ensures Lists(failures + Mismatches(|views| - 1, views[|views| - 1]), views)
  {
    var n := |views| - 1;
    var front, more := views[..n], Mismatches(n, views[n]);
    forall f ensures f in failures + more <==> Mismatch(f, views) {
      assert f in failures <==> Mismatch(f, front);
      assert f in more <==> Mismatch(f, views) && !Mismatch(f, front);
      assert Mismatch(f, front) ==> Mismatch(f, views);
    }
  }

  /** The frames the checksum rejects, and those whose status is active. */
  ghost function Rejected(l: Layout, frames: seq<int>): set<nat> { set i: nat | i < |frames| && BadCrc(l, frames[i]) }

  ghost function Active(l: Layout, frames: seq<int>): set<nat>
    requires Readable(l)
  {
    set i: nat | i < |frames| && StatusActive(l, frames[i])
  }

  /** The verdict on any frames that can be read. The counts are the numbers of frames with a failed checksum and with an
      active status bit; a frame is listed as a failure exactly when its checksum or its anchor is wrong, and the two lists
      exactly when they are given and not met; so the frames pass exactly when nothing of that is wrong. */
  lemma VerdictTells(p: Profile, frames: seq<int>, expectedPositions: seq<int>, expectedFrames: seq<int>)
    requires Readable(p.layout)
    ensures Verdict(p, frames, expectedPositions, expectedFrames).Value?
    ensures var (report, failures) := Verdict(p, frames, expectedPositions, expectedFrames).value;
            && report.frameCount == |frames| == |report.positions|
            && report.crcErrorCount == |Rejected(p.layout, frames)| && report.statusBlockCount == |Active(p.layout, frames)|
            && (forall i: nat :: CrcMismatch(i) in failures <==> i < |frames| && BadCrc(p.layout, frames[i]))
            && (forall i: nat :: (exists anchor :: AnchorMismatch(i, anchor) in failures) <==>
                  i < |frames| && !AnchorAgrees(p, frames[i]))
            && (FramesMismatch in failures <==> expectedFrames != [] && frames != expectedFrames)
            && (PositionsMismatch in failures <==> expectedPositions != [] && report.positions != expectedPositions)
            && (failures == [] <==>
                  && (forall i :: 0 <= i < |frames| ==> AnchorAgrees(p, frames[i]) && !BadCrc(p.layout, frames[i]))
                  && expectedFrames in {[], frames} && expectedPositions in {[], report.positions})
  {
    hide Inspect, StatusActive, AnchorAgrees, BadCrc, Readable;
    ViewsReadable(p, frames);
    var views := Views(p, frames).value;
    TallyTells(p, views);
    forall i | 0 <= i < |frames|
      ensures (views[i].crcOk <==> !BadCrc(p.layout, frames[i])) && (views[i].anchorOk <==> AnchorAgrees(p, frames[i]))
              && (views[i].statusActive <==> StatusActive(p.layout, frames[i])) {
      FrameIsSeen(p, frames[i]);
    }
    assert CrcErrors(views) == Rejected(p.layout, frames) && StatusErrors(views) == Active(p.layout, frames);
    hide Views, TallyOf, CrcErrors, StatusErrors, AnchorErrors, Rejected, Active;
    FailuresTell(p, frames, views, expectedPositions, expectedFrames);
  }

  lemma ListsAll(failures: seq<Failure>, views: seq<View>)
    requires Lists(failures, views)
    ensures forall f :: f in failures <==> Mismatch(f, views)
  {
  }

  lemma FailuresTell(p: Profile, frames: seq<int>, views: seq<View>, expectedPositions: seq<int>, expectedFrames: seq<int>)
    requires Readable(p.layout) && Views(p, frames) == Value(views) && |views| == |frames|
    requires forall i :: 0 <= i < |frames| ==>
               (views[i].crcOk <==> !BadCrc(p.layout, frames[i])) && (views[i].anchorOk <==> AnchorAgrees(p, frames[i]))
    requires Lists(TallyOf(p, views).failures, views)
    ensures var (report, failures) := Verdict(p, frames, expectedPositions, expectedFrames).value;
            && (forall i: nat :: CrcMismatch(i) in failures <==> i < |frames| && BadCrc(p.layout, frames[i]))
            && (forall i: nat :: (exists anchor :: AnchorMismatch(i, anchor) in failures) <==>
                  i < |frames| && !AnchorAgrees(p, frames[i]))
            && (FramesMismatch in failures <==> expectedFrames != [] && frames != expectedFrames)
            && (PositionsMismatch in failures <==> expectedPositions != [] && report.positions != expectedPositions)
            && (failures == [] <==>
                  && (forall i :: 0 <= i < |frames| ==> AnchorAgrees(p, frames[i]) && !BadCrc(p.layout, frames[i]))
                  && expectedFrames in {[], frames} && expectedPositions in {[], report.positions})
  {
    hide Views, TallyOf, Inspect, AnchorAgrees, BadCrc, Readable;
    var (report, failures) := Verdict(p, frames, expectedPositions, expectedFrames).value;
    var own := TallyOf(p, views).failures;
    assert forall f :: f in failures <==>
             f in own || (f == FramesMismatch && expectedFrames != [] && frames != expectedFrames)
             || (f == PositionsMismatch && expectedPositions != [] && report.positions != expectedPositions);
    hide Verdict, Lists;
    assert forall f :: f in own <==> Mismatch(f, views) by {
      ListsAll(own, views);
    }
    forall i: nat ensures (exists anchor :: AnchorMismatch(i, anchor) in failures) <==> i < |frames| && !AnchorAgrees(p, frames[i]) {
      if i < |frames| && !AnchorAgrees(p, frames[i]) {
        assert Mismatch(AnchorMismatch(i, views[i].anchor), views);
        assert AnchorMismatch(i, views[i].anchor) in failures;
      }
    }
    if failures != [] {
      assert failures[0] in failures;
    }
    forall i | 0 <= i < |frames| && failures == [] ensures AnchorAgrees(p, frames[i]) && !BadCrc(p.layout, frames[i]) {
      assert AnchorMismatch(i, views[i].anchor) !in failures && CrcMismatch(i) !in failures;
      assert !Mismatch(AnchorMismatch(i, views[i].anchor), views) && !Mismatch(CrcMismatch(i), views);
    }
  }

  /** So no short burst slips through: whichever frame of a list is hit, the list no longer passes, and that frame is named. */
  lemma BurstFailsVerdict(p: Profile, frames: seq<int>, i: nat, good: int, lo: int, expectedPositions: seq<int>, expectedFrames: seq<int>)
    requires Readable(p.layout) && CrcEnabled(p.layout) && p.layout.crcCoverBits > 0 && Odd(p.layout.crcPolynomial)
    requires InFrame(p.layout, Cover(p.layout)) && InFrame(p.layout, CrcField(p.layout))
    requires i < |frames| && CrcMatches(good, p.layout) == Value(true)
    requires Read(p.layout, frames[i], CrcField(p.layout)) == Read(p.layout, good, CrcField(p.layout))
    requires Read(p.layout, good, Cover(p.layout)).Value? && Read(p.layout, frames[i], Cover(p.layout)).Value?
    requires Burst(Read(p.layout, good, Cover(p.layout)).value, Read(p.layout, frames[i], Cover(p.layout)).value,
                   p.layout.crcCoverBits, lo, p.layout.crcBits)
    ensures var verdict := Verdict(p, frames, expectedPositions, expectedFrames);
            verdict.Value? && CrcMismatch(i) in verdict.value.1 && verdict.value.0.crcErrorCount > 0
  {
    hide Verdict, Readable, Read, Burst, CrcMatches, InFrame;
    CorruptedFrameFailsCrc(p.layout, good, frames[i], lo);
    VerdictTells(p, frames, expectedPositions, expectedFrames);
    assert i in Rejected(p.layout, frames);
  }
}
