/** From positions to a waveform and back: frames built, clocked out, sampled, and validated. */
module BissEndToEnd {
  import opened Bits
  import opened BissFrame
  import opened BissValidate
  import W = BissWave

  /** The waveform of some frames. */
  function Rows(w: W.Wave, frames: seq<int>): seq<W.Row>
    requires w.clockHz != 0
  {
    W.Stamp(W.Samples(w, W.HalfPeriod(w.clockHz), frames, |frames|))
  }

  /** Whatever a decoder returns for a generated waveform is the frames, cut to the frame width, without failures. */
  lemma OnlyDecoding(w: W.Wave, frames: seq<int>, edge: W.Edge, decoded: seq<int>, failures: seq<W.MissingBits>)
    requires w.clockHz != 0 && w.frameBits >= 1
    requires W.Decodes(Rows(w, frames), w.frameBits, edge, decoded, failures)
    ensures decoded == W.Carried(frames, w.frameBits) && failures == []
  {
    var samples := W.Samples(w, W.HalfPeriod(w.clockHz), frames, |frames|);
    W.WaveformRoundTrip(w, frames, edge);
    W.SampledIgnoresTimes(samples, edge);
    W.GeneratedIsSeen(w, W.HalfPeriod(w.clockHz), frames, |frames|, edge);
    W.CountingAscends(|frames|, W.Sampled(samples, edge).Keys);
  }

  lemma {:induction false} BuiltFramesFit(p: Profile, positions: seq<int>)
    requires Generatable(p.layout) && p.layout.frameBits >= 0
    requires p.layout.anchorBits > 0 ==> 0 <= p.layout.anchorValue < Pow2(p.layout.anchorBits)
    requires forall i :: 0 <= i < |positions| ==> Fits(p.layout, positions[i])
    ensures BuildFrames(p.layout, positions).Value?
    ensures forall f :: f in BuildFrames(p.layout, positions).value ==> 0 <= f < Pow2(p.layout.frameBits)
  {
    hide BuildFrame, Generatable;
    if positions != [] {
      var n := |positions| - 1;
      BuiltFramesFit(p, positions[..n]);
      OneBuiltFrameFits(p, positions[n]);
    }
  }

  lemma OneBuiltFrameFits(p: Profile, position: int)
    requires Generatable(p.layout) && Fits(p.layout, position) && p.layout.frameBits >= 0
    requires p.layout.anchorBits > 0 ==> 0 <= p.layout.anchorValue < Pow2(p.layout.anchorBits)
    ensures BuildFrame(p.layout, position).Value?
    ensures 0 <= BuildFrame(p.layout, position).value < Pow2(p.layout.frameBits)
  {
    FrameRoundTrip(p.layout, position);
  }

  /** Positions in, positions out: whatever the clock, the idle count and the sampling edge, decoding and validating the
      generated waveform reports the positions it was made from, and nothing is wrong with it. */
  lemma PositionsSurvive(p: Profile, w: W.Wave, positions: seq<int>, edge: W.Edge, decoded: seq<int>, failures: seq<W.MissingBits>)
    requires Generatable(p.layout) && p.layout.frameBits == w.frameBits >= 1 && w.clockHz != 0
    requires p.layout.anchorBits > 0 ==> 0 <= p.layout.anchorValue < Pow2(p.layout.anchorBits)
    requires forall i :: 0 <= i < |positions| ==> Fits(p.layout, positions[i])
    requires BuildFrames(p.layout, positions).Value?
    requires W.Decodes(Rows(w, BuildFrames(p.layout, positions).value), w.frameBits, edge, decoded, failures)
    ensures var frames := BuildFrames(p.layout, positions).value;
            var verdict := Verdict(p, decoded, positions, frames);
            && decoded == frames && failures == []
            && verdict.Value? && verdict.value.1 == [] && verdict.value.0.positions == positions
            && verdict.value.0.statusBlockCount == 0 && verdict.value.0.crcErrorCount == 0
  {
    hide Generatable, W.Decodes, Verdict, Rows, BuildFrames;
    var frames := BuildFrames(p.layout, positions).value;
    OnlyDecoding(w, frames, edge, decoded, failures);
    BuiltFramesFit(p, positions);
    assert forall i :: 0 <= i < |frames| ==> frames[i] in frames;
    W.CarriedUnchangedIffFits(frames, w.frameBits);
    GeneratedFramesValidate(p, positions);
  }
}
