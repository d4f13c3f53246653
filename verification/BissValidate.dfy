/** The validator's pass over decoded frames: field checks, status and CRC gates, crossing count. */
module BissValidate {
  import opened Outcomes
  import opened Bits
  import opened BissFrame

  datatype StatusGate = Ignore | Count | Block

  datatype Profile = Profile(layout: Layout, modulo: int, target: int, anchorMask: int, statusGate: StatusGate)

  function CrossedPosition(last: int, current: int, target: int, modulo: int): bool {
    if modulo == 0 || target >= modulo || last >= modulo || current >= modulo || last == current then false
    else if last < current then last < target <= current
    else target > last || target <= current
  }

  datatype Failure =
    | FramesMismatch
    | AnchorMismatch(index: nat, anchor: int)
    | CrcMismatch(index: nat)
    | PositionsMismatch

  datatype Report = Report(positions: seq<int>, frameCount: nat, statusBlockCount: nat, crcErrorCount: nat, crossingCount: nat)

  /** Everything the validator reads from one frame. */
  datatype View = View(anchor: int, anchorOk: bool, position: int, statusActive: bool, statusBlocked: bool, crcOk: bool)

  function Inspect(p: Profile, frame: int): Outcome<View> {
    var l := p.layout;
    var anchor :- if l.anchorBits > 0 then ExtractBitsMsb(frame, l.frameBits, l.anchorOffset, l.anchorBits) else Value(0);
    var anchorOk := l.anchorBits > 0 ==> And(anchor, p.anchorMask) == And(l.anchorValue, p.anchorMask);
    var position :- ExtractBitsMsb(frame, l.frameBits, l.positionOffset, l.positionBits);
    var error :- if l.errorBit >= 0 then ExtractBitsMsb(frame, l.frameBits, l.errorBit, 1) else Value(1);
    var warning :- if l.warningBit >= 0 then ExtractBitsMsb(frame, l.frameBits, l.warningBit, 1) else Value(1);
    var active := error == 0 || warning == 0;
    var crcOk :- CrcMatches(frame, l);
    Value(View(anchor, anchorOk, position, active, p.statusGate == Block && active, crcOk))
  }

  /** A crossing is only counted on a frame that passes both gates. */
  predicate Open(v: View) { v.crcOk && !v.statusBlocked }

  datatype Tally = Tally(report: Report, last: int, failures: seq<Failure>)

  const START := Tally(Report([], 0, 0, 0, 0), 0, [])

  function Observe(p: Profile, t: Tally, index: nat, v: View): Tally {
    var r := t.report;
    Tally(
      Report(r.positions + [v.position], r.frameCount + 1,
             r.statusBlockCount + (if v.statusActive then 1 else 0),
             r.crcErrorCount + (if v.crcOk then 0 else 1),
             r.crossingCount + (if Open(v) && CrossedPosition(t.last, v.position, p.target, p.modulo) then 1 else 0)),
      v.position,
      t.failures + Mismatches(index, v))
  }

  function Mismatches(index: nat, v: View): seq<Failure> {
    (if v.anchorOk then [] else [AnchorMismatch(index, v.anchor)]) + (if v.crcOk then [] else [CrcMismatch(index)])
  }

  function Views(p: Profile, frames: seq<int>): Outcome<seq<View>> {
    if frames == [] then Value([])
    else
      var before :- Views(p, frames[..|frames| - 1]);
      var v :- Inspect(p, frames[|frames| - 1]);
      Value(before + [v])
  }

  function TallyOf(p: Profile, views: seq<View>): Tally {
    if views == [] then START
    else Observe(p, TallyOf(p, views[..|views| - 1]), |views| - 1, views[|views| - 1])
  }

  /** The verdict on a list of frames: the views, tallied, with the two list comparisons around them. */
  function Verdict(p: Profile, frames: seq<int>, expectedPositions: seq<int>, expectedFrames: seq<int>)
    : Outcome<(Report, seq<Failure>)>
  {
    var views :- Views(p, frames);
    var t := TallyOf(p, views);
    Value((t.report,
           (if expectedFrames != [] && frames != expectedFrames then [FramesMismatch] else [])
           + t.failures
           + (if expectedPositions != [] && t.report.positions != expectedPositions then [PositionsMismatch] else [])))
  }

  lemma {:induction false} RaisedPrefix(p: Profile, frames: seq<int>, n: nat)
    requires n <= |frames| && Views(p, frames[..n]).Raised?
    ensures Views(p, frames) == Views(p, frames[..n])
    decreases |frames| - n
  {
    if n == |frames| {
      assert frames[..n] == frames;
    } else {
      assert frames[..n + 1][..n] == frames[..n];
      RaisedPrefix(p, frames, n + 1);
    }
  }

  method ValidateFrames(frames: seq<int>, p: Profile, expectedPositions: seq<int>, expectedFrames: seq<int>)
    returns (r: Outcome<(Report, seq<Failure>)>)
    ensures r == Verdict(p, frames, expectedPositions, expectedFrames)
  {
    var failures: seq<Failure> := [];
    var positions: seq<int> := [];
    var statusBlockCount, crcErrorCount, crossingCount, lastPosition := 0, 0, 0, 0;
    if expectedFrames != [] && frames != expectedFrames {
      failures := [FramesMismatch];
    }
    ghost var first := failures;
    ghost var views: seq<View> := [];
    ghost var tally := START;
    assert frames[..0] == [];
    hide Inspect, CrossedPosition;

    for index := 0 to |frames|
      invariant Views(p, frames[..index]) == Value(views) && |views| == index
      invariant tally == TallyOf(p, views)
      invariant tally.report == Report(positions, index, statusBlockCount, crcErrorCount, crossingCount)
      invariant tally.last == lastPosition && failures == first + tally.failures
    {
      var seen := Inspect(p, frames[index]);
      ViewsAppend(p, frames, index);
      if seen.Raised? {
        RaisedPrefix(p, frames, index + 1);
        return seen.PropagateFailure();
      }
      var v := seen.value;
      if !v.anchorOk {
        failures := failures + [AnchorMismatch(index, v.anchor)];
      }
      positions := positions + [v.position];
      if v.statusActive {
        statusBlockCount := statusBlockCount + 1;
      }
      if !v.crcOk {
        crcErrorCount := crcErrorCount + 1;
        failures := failures + [CrcMismatch(index)];
      }
      if v.crcOk && !v.statusBlocked && CrossedPosition(lastPosition, v.position, p.target, p.modulo) {
        crossingCount := crossingCount + 1;
      }
      lastPosition := v.position;
      TallyAppend(p, views, v);
      FailuresAppend(first, tally.failures, Mismatches(index, v));
      views, tally := views + [v], Observe(p, tally, index, v);
    }

    assert frames[..|frames|] == frames;
    if expectedPositions != [] && positions != expectedPositions {
      failures := failures + [PositionsMismatch];
    }
    assert failures == first + tally.failures
      + (if expectedPositions != [] && positions != expectedPositions then [PositionsMismatch] else []);
    r := Value((Report(positions, |frames|, statusBlockCount, crcErrorCount, crossingCount), failures));
  }

  lemma FailuresAppend(first: seq<Failure>, failures: seq<Failure>, more: seq<Failure>)
    ensures first + (failures + more) == first + failures + more
  {
  }

  lemma ViewsAppend(p: Profile, frames: seq<int>, index: nat)
    requires index < |frames| && Views(p, frames[..index]).Value?
    ensures Inspect(p, frames[index]).Raised? ==>
            Views(p, frames[..index + 1]) == Raised(Inspect(p, frames[index]).error)
    ensures Inspect(p, frames[index]).Value? ==>
            Views(p, frames[..index + 1]) == Value(Views(p, frames[..index]).value + [Inspect(p, frames[index]).value])
  {
    assert frames[..index + 1][..index] == frames[..index];
  }

  lemma TallyAppend(p: Profile, views: seq<View>, v: View)
    ensures TallyOf(p, views + [v]) == Observe(p, TallyOf(p, views), |views|, v)
  {
    assert (views + [v])[..|views|] == views;
  }

  // ----- modular positions of a rising encoder -----

  lemma DivMod(a: int, m: int)
    requires m > 0
    ensures a == (a / m) * m + a % m && 0 <= a % m < m
  {
  }

  lemma MulBounds(d: int, m: int)
    requires m > 0
    ensures d < 0 ==> d * m <= -m
    ensures d > 0 ==> d * m >= m
    ensures d > 1 ==> d * m >= 2 * m
    ensures d >= 0 ==> d * m >= d
  {
    if d < 0 {
      assert (-1 - d) * m >= 0;
    } else if d > 1 {
      assert (d - 2) * m >= 0;
    }
    if d >= 0 { assert d * (m - 1) >= 0; }
  }

  /** k * m <= a exactly when k <= a / m. */
  lemma MultipleBelow(k: int, a: int, m: int)
    requires m > 0
    ensures k * m <= a <==> k <= a / m
  {
    DivMod(a, m);
    var q := a / m;
    MulBounds(k - q, m);
    assert (k - q) * m == k * m - q * m;
    if k == q { assert (k - q) * m == 0; }
  }

  /** The largest k with target + k * m <= position. */
  function LastHit(position: int, target: int, m: int): int
    requires m > 0
  {
    (position - target) / m
  }

  /** The validator's test on two positions modulo m, in terms of distances travelled round the ring. */
  lemma CrossedIsRingDistance(last: int, current: int, target: int, m: int)
    requires m > 0 && 0 <= last < m && 0 <= current < m && 0 <= target < m
    ensures CrossedPosition(last, current, target, m)
        <==> 1 <= (target - last) % m <= (current - last) % m
  {
    RingDistance(target - last, m);
    RingDistance(current - last, m);
  }

  lemma RingDistance(d: int, m: int)
    requires m > 0 && -m < d < m
    ensures d % m == if d < 0 then d + m else d
  {
  }

  /** An encoder that rises by less than one revolution crosses the target exactly when a further
      multiple of the revolution past the target has been reached. */
  lemma CrossedIsNextHit(a: int, b: int, target: int, m: int)
    requires m > 0 && 0 <= target < m && a <= b < a + m
    ensures LastHit(a, target, m) <= LastHit(b, target, m) <= LastHit(a, target, m) + 1
    ensures CrossedPosition(a % m, b % m, target, m) <==> LastHit(b, target, m) == LastHit(a, target, m) + 1
  {
    var x, y := a / m, b / m;
    DivMod(a, m);
    DivMod(b, m);
    NextRevolution(x, a % m, y, b % m, m);
    HitOfParts(x, a % m, target, m);
    HitOfParts(y, b % m, target, m);
  }

  lemma NextRevolution(x: int, r: int, y: int, s: int, m: int)
    requires m > 0 && 0 <= r < m && 0 <= s < m
    requires x * m + r <= y * m + s < x * m + r + m
    ensures (y == x && r <= s) || (y == x + 1 && s < r)
  {
    var d := y - x;
    MulBounds(d, m);
    assert d * m == y * m - x * m;
    if d == 0 { assert d * m == 0; }
    if d == 1 { assert d * m == m; }
  }

  lemma HitOfParts(q: int, r: int, target: int, m: int)
    requires m > 0 && 0 <= r < m && 0 <= target < m
    ensures LastHit(q * m + r, target, m) == if target <= r then q else q - 1
  {
    var a := q * m + r - target;
    if target <= r {
      MultipleBelow(q, a, m);
      MultipleBelow(q + 1, a, m);
      assert (q + 1) * m == q * m + m;
    } else {
      MultipleBelow(q - 1, a, m);
      MultipleBelow(q, a, m);
      assert (q - 1) * m == q * m - m;
    }
  }

  // ----- the exact crossing count -----

  /** The revolutions k at which the target lies above 0 and not above `position`. */
  ghost function Crossings(position: int, target: int, m: int): set<int> {
    set k: int | 0 <= k <= position && 0 < target + k * m <= position
  }

  /** Restricting k to 0 .. position loses no crossing. */
  lemma CrossingsAreAll(position: int, target: int, m: int, k: int)
    requires m > 0 && 0 <= target < m
    ensures k in Crossings(position, target, m) <==> 0 < target + k * m <= position
  {
    MulBounds(k, m);
  }

  function FirstHit(target: int): int { if target > 0 then 0 else 1 }

  lemma CrossingsAreInterval(position: int, target: int, m: int)
    requires m > 0 && 0 <= target < m
    ensures forall k: int :: k in Crossings(position, target, m) <==> FirstHit(target) <= k <= LastHit(position, target, m)
  {
    forall k: int ensures k in Crossings(position, target, m) <==> FirstHit(target) <= k <= LastHit(position, target, m) {
      CrossingsAreAll(position, target, m, k);
      MultipleBelow(k, position - target, m);
      MulBounds(k, m);
    }
  }

  /** One frame adds the crossing it makes, and no other. */
  lemma CrossingsStep(a: int, b: int, target: int, m: int)
    requires m > 0 && 0 <= target < m && 0 <= a <= b < a + m
    ensures |Crossings(b, target, m)|
         == |Crossings(a, target, m)| + (if CrossedPosition(a % m, b % m, target, m) then 1 else 0)
  {
    CrossingsAreInterval(a, target, m);
    CrossingsAreInterval(b, target, m);
    CrossedIsNextHit(a, b, target, m);
    var hit := LastHit(b, target, m);
    FirstHitReached(a, target, m);
    if CrossedPosition(a % m, b % m, target, m) {
      assert Crossings(b, target, m) == Crossings(a, target, m) + {hit};
    } else {
      assert Crossings(b, target, m) == Crossings(a, target, m);
    }
  }

  lemma FirstHitReached(a: int, target: int, m: int)
    requires m > 0 && 0 <= target < m && a >= 0
    ensures LastHit(a, target, m) >= FirstHit(target) - 1
  {
    MultipleBelow(FirstHit(target) - 1, a - target, m);
    if target > 0 { assert -1 * m == -m; } else { assert 0 * m == 0; }
  }

  function Before(absolute: seq<int>, i: nat): int
    requires i <= |absolute|
  {
    if i == 0 then 0 else absolute[i - 1]
  }

  /** The encoder turned to `absolute[i]` when frame i was sampled: it starts at 0 and rises by less than m. */
  ghost predicate Rising(absolute: seq<int>, m: int) {
    forall i :: 0 <= i < |absolute| ==> Before(absolute, i) <= absolute[i] < Before(absolute, i) + m
  }

  function Final(absolute: seq<int>): int {
    if absolute == [] then 0 else absolute[|absolute| - 1]
  }

  /** The frames carry the encoder's position modulo m. */
  ghost predicate Reports(views: seq<View>, absolute: seq<int>, m: int)
    requires m > 0
  {
    |views| == |absolute| && forall i :: 0 <= i < |views| ==> views[i].position == absolute[i] % m
  }

  ghost predicate CrossesAt(p: Profile, views: seq<View>, i: nat)
    requires i < |views|
  {
    CrossedPosition(if i == 0 then 0 else views[i - 1].position, views[i].position, p.target, p.modulo)
  }

  /** Crossings that a closed gate hides from the count. */
  function Hidden(p: Profile, views: seq<View>): nat {
    if views == [] then 0
    else
      var n := |views| - 1;
      Hidden(p, views[..n])
      + (if !Open(views[n]) && CrossedPosition(if n == 0 then 0 else views[n - 1].position, views[n].position, p.target, p.modulo)
         then 1 else 0)
  }

  lemma {:induction false} HiddenIsZero(p: Profile, views: seq<View>)
    ensures Hidden(p, views) == 0 <==> forall i :: 0 <= i < |views| && !Open(views[i]) ==> !CrossesAt(p, views, i)
  {
    if views != [] {
      var n := |views| - 1;
      var front := views[..n];
      HiddenIsZero(p, front);
      forall i | 0 <= i < n ensures CrossesAt(p, front, i) == CrossesAt(p, views, i) {}
      assert forall i :: 0 <= i < n ==> Open(front[i]) == Open(views[i]);
    }
  }

  /** Over a whole run the count misses exactly the hidden crossings and counts none twice. */
  lemma {:induction false} CountedPlusHidden(p: Profile, views: seq<View>, absolute: seq<int>)
    requires p.modulo > 0 && 0 <= p.target < p.modulo
    requires Rising(absolute, p.modulo) && Reports(views, absolute, p.modulo)
    ensures Final(absolute) >= 0 && TallyOf(p, views).last == Final(absolute) % p.modulo
    ensures TallyOf(p, views).report.crossingCount + Hidden(p, views) == |Crossings(Final(absolute), p.target, p.modulo)|
  {
    var m := p.modulo;
    if views == [] {
      CrossingsAreInterval(0, p.target, m);
      if p.target > 0 { MultipleBelow(0, 0 - p.target, m); } else { MultipleBelow(1, 0, m); }
      assert Crossings(0, p.target, m) == {};
    } else {
      var n := |views| - 1;
      forall i | 0 <= i < n ensures Before(absolute[..n], i) == Before(absolute, i) {}
      CountedPlusHidden(p, views[..n], absolute[..n]);
      var a := Final(absolute[..n]);
      assert a == Before(absolute, n);
      CrossingsStep(a, absolute[n], p.target, m);
    }
  }

  /** The crossing count is the number of revolutions k with 0 < target + k * modulo <= final position
      exactly when no blocked or CRC-failed frame was the one that crossed. */
  lemma CrossingCountIsExact(p: Profile, views: seq<View>, absolute: seq<int>)
    requires p.modulo > 0 && 0 <= p.target < p.modulo
    requires Rising(absolute, p.modulo) && Reports(views, absolute, p.modulo)
    ensures TallyOf(p, views).report.crossingCount == |Crossings(Final(absolute), p.target, p.modulo)|
       <==> forall i :: 0 <= i < |views| && !Open(views[i]) ==> !CrossesAt(p, views, i)
  {
    CountedPlusHidden(p, views, absolute);
    HiddenIsZero(p, views);
  }

  // ----- generated frames pass the validator -----

  /** The generator's frames for a list of positions. */
  function BuildFrames(l: Layout, positions: seq<int>): Outcome<seq<int>> {
    if positions == [] then Value([])
    else
      var before :- BuildFrames(l, positions[..|positions| - 1]);
      var frame :- BuildFrame(l, positions[|positions| - 1]);
      Value(before + [frame])
  }

  /** A position that fits its field. */
  predicate Fits(l: Layout, position: int) {
    if l.positionBits <= 0 then position == 0 else 0 <= position < Pow2(l.positionBits)
  }

  /** A CRC whose cover is not empty, as the generator needs it. */
  ghost predicate Generatable(l: Layout) {
    WellFormed(l) && (CrcEnabled(l) ==> l.crcCoverBits > 0)
  }

  lemma BuiltView(p: Profile, position: int)
    requires Generatable(p.layout) && Fits(p.layout, position)
    requires p.layout.anchorBits > 0 ==> 0 <= p.layout.anchorValue < Pow2(p.layout.anchorBits)
    ensures BuildFrame(p.layout, position).Value?
    ensures Inspect(p, BuildFrame(p.layout, position).value).Value?
    ensures var v := Inspect(p, BuildFrame(p.layout, position).value).value;
            v.position == position && v.anchorOk && !v.statusActive && Open(v)
  {
    var l := p.layout;
    FrameRoundTrip(l, position);
    BuiltFramePassesCrc(l, position);
    var frame := BuildFrame(l, position).value;
    if l.positionBits > 0 { Fitting(position, l.positionBits); }
    if l.anchorBits > 0 { Fitting(l.anchorValue, l.anchorBits); }
    assert ExtractBitsMsb(frame, l.frameBits, l.anchorOffset, l.anchorBits) == Read(l, frame, Anchor(l));
    assert ExtractBitsMsb(frame, l.frameBits, l.positionOffset, l.positionBits) == Read(l, frame, Position(l));
  }

  /** A frame as the generator means it: its position, nothing active, both gates open. */
  ghost predicate Clean(v: View, position: int) {
    v.position == position && v.anchorOk && !v.statusActive && Open(v)
  }

  lemma {:induction false} GeneratedViews(p: Profile, positions: seq<int>)
    requires Generatable(p.layout)
    requires p.layout.anchorBits > 0 ==> 0 <= p.layout.anchorValue < Pow2(p.layout.anchorBits)
    requires forall i :: 0 <= i < |positions| ==> Fits(p.layout, positions[i])
    ensures BuildFrames(p.layout, positions).Value?
    ensures Views(p, BuildFrames(p.layout, positions).value).Value?
    ensures var views := Views(p, BuildFrames(p.layout, positions).value).value;
            |views| == |positions| && forall i :: 0 <= i < |views| ==> Clean(views[i], positions[i])
  {
    if positions != [] {
      var n := |positions| - 1;
      GeneratedViews(p, positions[..n]);
      BuiltView(p, positions[n]);
      var frames := BuildFrames(p.layout, positions).value;
      assert frames[..|frames| - 1] == BuildFrames(p.layout, positions[..n]).value;
    }
  }

  lemma {:induction false} TallyOfCleanViews(p: Profile, views: seq<View>, positions: seq<int>)
    requires |views| == |positions| && forall i :: 0 <= i < |views| ==> Clean(views[i], positions[i])
    ensures var t := TallyOf(p, views);
            && t.report.positions == positions && t.report.frameCount == |positions|
            && t.report.statusBlockCount == 0 && t.report.crcErrorCount == 0 && t.failures == []
  {
    if views != [] {
      var n := |views| - 1;
      TallyOfCleanViews(p, views[..n], positions[..n]);
      assert positions == positions[..n] + [positions[n]];
    }
  }

  /** Positions in, positions out: whatever the status gate, mask and modulo, validating the generated frames
      against the generator's own summary reports the positions they were built from, with no status or CRC
      error and no failure. */
  lemma GeneratedFramesValidate(p: Profile, positions: seq<int>)
    requires Generatable(p.layout)
    requires p.layout.anchorBits > 0 ==> 0 <= p.layout.anchorValue < Pow2(p.layout.anchorBits)
    requires forall i :: 0 <= i < |positions| ==> Fits(p.layout, positions[i])
    ensures BuildFrames(p.layout, positions).Value?
    ensures var frames := BuildFrames(p.layout, positions).value;
            var verdict := Verdict(p, frames, positions, frames);
            && verdict.Value?
            && verdict.value.1 == []
            && verdict.value.0.positions == positions && verdict.value.0.frameCount == |positions|
            && verdict.value.0.statusBlockCount == 0 && verdict.value.0.crcErrorCount == 0
  {
    GeneratedViews(p, positions);
    TallyOfCleanViews(p, Views(p, BuildFrames(p.layout, positions).value).value, positions);
  }

  /** The frames generated from a rising encoder's positions are counted exactly. */
  lemma GeneratedCrossingsExact(p: Profile, positions: seq<int>, absolute: seq<int>)
    requires Generatable(p.layout)
    requires p.layout.anchorBits > 0 ==> 0 <= p.layout.anchorValue < Pow2(p.layout.anchorBits)
    requires forall i :: 0 <= i < |positions| ==> Fits(p.layout, positions[i])
    requires p.modulo > 0 && 0 <= p.target < p.modulo && Rising(absolute, p.modulo) && |absolute| == |positions|
    requires forall i :: 0 <= i < |positions| ==> positions[i] == absolute[i] % p.modulo
    ensures BuildFrames(p.layout, positions).Value?
    ensures var verdict := Verdict(p, BuildFrames(p.layout, positions).value, [], []);
            && verdict.Value?
            && verdict.value.0.crossingCount == |Crossings(Final(absolute), p.target, p.modulo)|
  {
    GeneratedViews(p, positions);
    var views := Views(p, BuildFrames(p.layout, positions).value).value;
    forall i | 0 <= i < |views| ensures Open(views[i]) && views[i].position == absolute[i] % p.modulo {
      assert Clean(views[i], positions[i]);
    }
    CrossingCountIsExact(p, views, absolute);
  }
}
