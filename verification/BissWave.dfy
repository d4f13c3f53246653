/** Frames as a sampled CLK/DATA waveform, and the edge-sampling decoder that reads them back. */
module BissWave {
  import opened Outcomes
  import opened Bits

  datatype Row = Row(timeNs: int, clk: int, data: int, frameIndex: int, bitIndex: int)

  datatype Edge = Rising | Falling

  datatype Wave = Wave(clockHz: int, idleBits: int, frameBits: int)

  // ----- generation -----

  function Last(rows: seq<Row>): Row
    requires rows != []
  {
    rows[|rows| - 1]
  }

  /** A sample that is not later than the previous row is moved 1 ns past it. */
  function Place(rows: seq<Row>, sample: Row): Row {
    if rows != [] && sample.timeNs <= Last(rows).timeNs then sample.(timeNs := Last(rows).timeNs + 1) else sample
  }

  function Stamp(samples: seq<Row>): (rows: seq<Row>)
    ensures |rows| == |samples|
  {
    if samples == [] then []
    else
      var before := Stamp(samples[..|samples| - 1]);
      before + [Place(before, Last(samples))]
  }

  /** Python's floor division. */
  function FloorDiv(a: int, b: int): int
    requires b != 0
  {
    if b > 0 then a / b else (-a) / (-b)
  }

  function HalfPeriod(clockHz: int): int
    requires clockHz != 0
  {
    FloorDiv(1_000_000_000, clockHz) / 2
  }

  function Times(n: int): nat { if n < 0 then 0 else n }

  function FrameBit(frame: int, frameBits: int, index: nat): int
    requires index < frameBits
  {
    And(Shr(frame, frameBits - 1 - index), 1)
  }

  function FrameBitsMsb(frame: int, frameBits: int): seq<int> {
    seq(Times(frameBits), i requires 0 <= i < Times(frameBits) => FrameBit(frame, frameBits, i))
  }

  /** The time after n half periods. */
  function Advance(time: int, half: int, n: nat): int {
    if n == 0 then time else Advance(time, half, n - 1) + half
  }

  function IdleSamples(time: int, half: int, data: int, frameIndex: int, n: nat): seq<Row> {
    if n == 0 then []
    else
      IdleSamples(time, half, data, frameIndex, n - 1)
      + IdleSample(Advance(time, half, 2 * n - 2), half, data, frameIndex)
  }

  function IdleSample(t: int, half: int, data: int, frameIndex: int): seq<Row> {
    [Row(t + half, 1, data, frameIndex, -1), Row(t + half + half, 0, data, frameIndex, -1)]
  }

  function BitSamples(time: int, half: int, bits: seq<int>, frameIndex: int, n: nat): seq<Row>
    requires n <= |bits|
  {
    if n == 0 then []
    else
      BitSamples(time, half, bits, frameIndex, n - 1)
      + BitSample(Advance(time, half, 2 * n - 2), half, bits[n - 1], frameIndex, n - 1)
  }

  function BitSample(t: int, half: int, bit: int, frameIndex: int, bitIndex: int): seq<Row> {
    [Row(t, 0, bit, frameIndex, bitIndex), Row(t + half, 1, bit, frameIndex, bitIndex),
     Row(t + half + half, 0, bit, frameIndex, bitIndex)]
  }

  function StartTime(w: Wave, half: int, n: nat): int {
    if n == 0 then 0
    else Advance(Advance(StartTime(w, half, n - 1), half, 2 * Times(w.idleBits)), half, 2 * Times(w.frameBits))
  }

  /** The level the data line rests at before frame n. */
  function RestLevel(w: Wave, frames: seq<int>, n: nat): int
    requires n <= |frames|
  {
    if n == 0 then 1
    else
      var bits := FrameBitsMsb(frames[n - 1], w.frameBits);
      if bits == [] then RestLevel(w, frames, n - 1) else bits[|bits| - 1]
  }

  /** The nominal samples of the first n frames, before equal times are pushed apart. */
  function Samples(w: Wave, half: int, frames: seq<int>, n: nat): seq<Row>
    requires n <= |frames|
  {
    if n == 0 then [Row(0, 0, 1, -1, -1)]
    else
      AddFrame(Samples(w, half, frames, n - 1), w, StartTime(w, half, n - 1), half, RestLevel(w, frames, n - 1),
               FrameBitsMsb(frames[n - 1], w.frameBits), n - 1)
  }

  /** The idle periods and the clocked bits of one frame, after what came before. */
  function AddFrame(before: seq<Row>, w: Wave, start: int, half: int, level: int, bits: seq<int>, f: int): seq<Row> {
    before + IdleSamples(start, half, level, f, Times(w.idleBits))
    + BitSamples(Advance(start, half, 2 * Times(w.idleBits)), half, bits, f, |bits|)
  }

  lemma StampAppend(samples: seq<Row>, sample: Row)
    ensures Stamp(samples + [sample]) == Stamp(samples) + [Place(Stamp(samples), sample)]
  {
    assert (samples + [sample])[..|samples|] == samples;
  }

  lemma Associate(a: seq<Row>, b: seq<Row>, c: seq<Row>)
    ensures a + (b + c) == a + b + c
  {
  }

  lemma AdvanceTwo(time: int, half: int, n: nat)
    ensures Advance(time, half, n + 2) == Advance(time, half, n) + half + half
  {
    assert Advance(time, half, n + 1) == Advance(time, half, n) + half;
  }

  class RowList {
    var rows: seq<Row>

    constructor ()
      ensures rows == []
    {
      rows := [];
    }

    method AppendSample(sampleNs: int, clk: int, data: int, frameIndex: int, bitIndex: int, ghost samples: seq<Row>)
      requires rows == Stamp(samples)
      modifies this
      ensures rows == Stamp(samples + [Row(sampleNs, clk, data, frameIndex, bitIndex)])
    {
      StampAppend(samples, Row(sampleNs, clk, data, frameIndex, bitIndex));
      var t := sampleNs;
      if rows != [] && t <= rows[|rows| - 1].timeNs {
        t := rows[|rows| - 1].timeNs + 1;
      }
      rows := rows + [Row(t, clk, data, frameIndex, bitIndex)];
    }

    /** One idle clock period. */
    method AppendPeriod(start: int, half: int, data: int, frameIndex: int, ghost samples: seq<Row>)
      returns (timeNs: int)
      requires rows == Stamp(samples)
      modifies this
      ensures rows == Stamp(samples + IdleSample(start, half, data, frameIndex))
      ensures timeNs == start + half + half
    {
      timeNs := start + half;
      AppendSample(timeNs, 1, data, frameIndex, -1, samples);
      ghost var one := samples + [Row(timeNs, 1, data, frameIndex, -1)];
      timeNs := timeNs + half;
      AppendSample(timeNs, 0, data, frameIndex, -1, one);
      assert one + [Row(timeNs, 0, data, frameIndex, -1)] == samples + IdleSample(start, half, data, frameIndex);
    }

    /** The idle clock periods before a frame. */
    method AppendIdle(start: int, half: int, data: int, frameIndex: int, idleBits: int, ghost samples: seq<Row>)
      returns (timeNs: int)
      requires rows == Stamp(samples)
      modifies this
      ensures rows == Stamp(samples + IdleSamples(start, half, data, frameIndex, Times(idleBits)))
      ensures timeNs == Advance(start, half, 2 * Times(idleBits))
    {
      timeNs := start;
      var idle := 0;
      assert samples + [] == samples;
      while idle < idleBits
        invariant 0 <= idle <= Times(idleBits)
        invariant rows == Stamp(samples + IdleSamples(start, half, data, frameIndex, idle))
        invariant timeNs == Advance(start, half, 2 * idle)
      {
        AdvanceTwo(start, half, 2 * idle);
        ghost var before := IdleSamples(start, half, data, frameIndex, idle);
        Associate(samples, before, IdleSample(timeNs, half, data, frameIndex));
        timeNs := AppendPeriod(timeNs, half, data, frameIndex, samples + before);
        idle := idle + 1;
      }
    }

    /** One clocked bit: data set up while the clock is low, then a clock pulse. */
    method AppendBit(start: int, half: int, bit: int, frameIndex: int, bitIndex: int, ghost samples: seq<Row>)
      returns (timeNs: int)
      requires rows == Stamp(samples)
      modifies this
      ensures rows == Stamp(samples + BitSample(start, half, bit, frameIndex, bitIndex))
      ensures timeNs == start + half + half
    {
      timeNs := start;
      AppendSample(timeNs, 0, bit, frameIndex, bitIndex, samples);
      ghost var one := samples + [Row(timeNs, 0, bit, frameIndex, bitIndex)];
      timeNs := timeNs + half;
      AppendSample(timeNs, 1, bit, frameIndex, bitIndex, one);
      ghost var two := one + [Row(timeNs, 1, bit, frameIndex, bitIndex)];
      timeNs := timeNs + half;
      AppendSample(timeNs, 0, bit, frameIndex, bitIndex, two);
      assert two + [Row(timeNs, 0, bit, frameIndex, bitIndex)] == samples + BitSample(start, half, bit, frameIndex, bitIndex);
    }

    /** The clocked bits of a frame. */
    method AppendBits(start: int, half: int, level: int, bits: seq<int>, frameIndex: int, ghost samples: seq<Row>)
      returns (timeNs: int, data: int)
      requires rows == Stamp(samples)
      modifies this
      ensures rows == Stamp(samples + BitSamples(start, half, bits, frameIndex, |bits|))
      ensures timeNs == Advance(start, half, 2 * |bits|)
      ensures data == if bits == [] then level else bits[|bits| - 1]
    {
      timeNs, data := start, level;
      assert samples + [] == samples;
      for bitIndex := 0 to |bits|
        invariant rows == Stamp(samples + BitSamples(start, half, bits, frameIndex, bitIndex))
        invariant timeNs == Advance(start, half, 2 * bitIndex)
        invariant data == if bitIndex == 0 then level else bits[bitIndex - 1]
      {
        AdvanceTwo(start, half, 2 * bitIndex);
        data := bits[bitIndex];
        ghost var before := BitSamples(start, half, bits, frameIndex, bitIndex);
        Associate(samples, before, BitSample(timeNs, half, data, frameIndex, bitIndex));
        timeNs := AppendBit(timeNs, half, data, frameIndex, bitIndex, samples + before);
      }
    }
  }

  method GenerateRows(w: Wave, frames: seq<int>) returns (r: Outcome<seq<Row>>)
    ensures w.clockHz == 0 ==> r == Raised(DivisionByZero)
    ensures w.clockHz != 0 ==> r == Value(Stamp(Samples(w, HalfPeriod(w.clockHz), frames, |frames|)))
  {
    if w.clockHz == 0 {
      return Raised(DivisionByZero);
    }
    var halfNs := FloorDiv(1_000_000_000, w.clockHz) / 2;
    var list := new RowList();
    var timeNs, data := 0, 1;
    list.AppendSample(timeNs, 0, data, -1, -1, []);
    ghost var samples := [Row(0, 0, 1, -1, -1)];
    assert [] + samples == samples;
    for frameIndex := 0 to |frames|
      invariant samples == Samples(w, halfNs, frames, frameIndex) && list.rows == Stamp(samples)
      invariant timeNs == StartTime(w, halfNs, frameIndex) && data == RestLevel(w, frames, frameIndex)
    {
      var bits := FrameBitsMsb(frames[frameIndex], w.frameBits);
      ghost var idle := IdleSamples(timeNs, halfNs, data, frameIndex, Times(w.idleBits));
      timeNs := list.AppendIdle(timeNs, halfNs, data, frameIndex, w.idleBits, samples);
      ghost var clocked := BitSamples(timeNs, halfNs, bits, frameIndex, |bits|);
      timeNs, data := list.AppendBits(timeNs, halfNs, data, bits, frameIndex, samples + idle);
      samples := samples + idle + clocked;
    }
    r := Value(list.rows);
  }

  // ----- decoding -----

  type BitMap = map<int, int>

  predicate IsActiveEdge(previous: Row, current: Row, edge: Edge) {
    match edge
    case Rising => previous.clk == 0 && current.clk == 1
    case Falling => previous.clk == 1 && current.clk == 0
  }

  /** What one pair of neighbouring rows adds to the bits seen so far. */
  function Observe(seen: map<int, BitMap>, previous: Row, current: Row, edge: Edge): map<int, BitMap> {
    if !IsActiveEdge(previous, current, edge) || current.frameIndex < 0 || current.bitIndex < 0 then seen
    else
      var f := current.frameIndex;
      seen[f := (if f in seen then seen[f] else map[])[current.bitIndex := And(current.data, 1)]]
  }

  function Sampled(rows: seq<Row>, edge: Edge): map<int, BitMap> {
    if |rows| < 2 then map[]
    else Observe(Sampled(rows[..|rows| - 1], edge), rows[|rows| - 2], rows[|rows| - 1], edge)
  }

  /** `sorted(keys)`: the keys in ascending order. */
  ghost predicate IsAscending(s: seq<int>, keys: set<int>) {
    && (forall i, j :: 0 <= i < j < |s| ==> s[i] < s[j])
    && (forall k :: k in s <==> k in keys)
  }

  lemma SomeElement(keys: set<int>)
    ensures keys == {} || exists k :: k in keys
  {
    if forall k :: k !in keys { assert keys == {}; }
  }

  lemma TopIsLargest(s: seq<int>, keys: set<int>)
    requires IsAscending(s, keys) && s != []
    ensures s[|s| - 1] in keys && forall k :: k in keys ==> k <= s[|s| - 1]
  {
    assert s[|s| - 1] in s;
    forall k | k in keys ensures k <= s[|s| - 1] {
      assert k in s;
    }
  }

  lemma {:induction false} AscendingIsUnique(s: seq<int>, t: seq<int>, keys: set<int>)
    requires IsAscending(s, keys) && IsAscending(t, keys)
    ensures s == t
  {
    if t != [] { assert t[0] in t; }
    if s != [] {
      assert s[0] in s;
      assert s[0] in t;
      TopIsLargest(s, keys);
      TopIsLargest(t, keys);
      AscendingPrefix(s, keys);
      AscendingPrefix(t, keys);
      AscendingIsUnique(s[..|s| - 1], t[..|t| - 1], keys - {s[|s| - 1]});
      assert s == s[..|s| - 1] + [s[|s| - 1]] && t == t[..|t| - 1] + [t[|t| - 1]];
    }
  }

  lemma AscendingPrefix(s: seq<int>, keys: set<int>)
    requires IsAscending(s, keys) && s != []
    ensures IsAscending(s[..|s| - 1], keys - {s[|s| - 1]})
  {
    var front := s[..|s| - 1];
    forall k ensures k in front <==> k in keys - {s[|s| - 1]} {
      if k in keys && k != s[|s| - 1] {
        assert k in s;
        var i :| 0 <= i < |s| && s[i] == k;
        assert front[i] == k;
      }
    }
  }

  method SortedKeys(keys: set<int>) returns (s: seq<int>)
    ensures IsAscending(s, keys)
  {
    s := [];
    var rest := keys;
    while rest != {}
      invariant rest <= keys && IsAscending(s, keys - rest)
      invariant forall k, r :: k in s && r in rest ==> k < r
      decreases |rest|
    {
      var least := Least(rest);
      ghost var was := s;
      s := s + [least];
      rest := rest - {least};
      forall k ensures k in s <==> k in keys - rest {
        assert k in s <==> k in was || k == least;
      }
      forall i, j | 0 <= i < j < |s| ensures s[i] < s[j] {
        assert s[i] in was;
      }
    }
  }

  method Least(keys: set<int>) returns (least: int)
    requires keys != {}
    ensures least in keys && forall k :: k in keys ==> least <= k
  {
    SomeElement(keys);
    least :| least in keys;
    var rest := keys - {least};
    while rest != {}
      invariant rest <= keys && least in keys
      invariant forall k :: k in keys && k !in rest ==> least <= k
      decreases |rest|
    {
      SomeElement(rest);
      var k :| k in rest;
      if k < least {
        least := k;
      }
      rest := rest - {k};
    }
  }

  datatype MissingBits = MissingBits(frameIndex: int, firstMissing: seq<int>)

  function Missing(bits: BitMap, n: nat): seq<int> {
    if n == 0 then [] else Missing(bits, n - 1) + (if n - 1 in bits then [] else [n - 1])
  }

  /** The frame read from its first n bits, most significant first. */
  function Assemble(bits: BitMap, n: nat): int
    requires Missing(bits, n) == []
  {
    if n == 0 then 0 else Or(Shl(Assemble(bits, n - 1), 1), bits[n - 1])
  }

  function FirstEight(s: seq<int>): seq<int> { if |s| <= 8 then s else s[..8] }

  /** The complete frames, in key order, and a failure for each incomplete one. */
  function Collect(seen: map<int, BitMap>, keys: seq<int>, frameBits: int): (seq<int>, seq<MissingBits>)
    requires forall k :: k in keys ==> k in seen
  {
    if keys == [] then ([], [])
    else
      var (frames, failures) := Collect(seen, keys[..|keys| - 1], frameBits);
      var key := keys[|keys| - 1];
      var missing := Missing(seen[key], Times(frameBits));
      if missing != [] then (frames, failures + [MissingBits(key, FirstEight(missing))])
      else (frames + [Assemble(seen[key], Times(frameBits))], failures)
  }

  /** The decoder's result: it collects the sampled frames in ascending order. */
  ghost predicate Decodes(rows: seq<Row>, frameBits: int, edge: Edge, frames: seq<int>, failures: seq<MissingBits>) {
    var seen := Sampled(rows, edge);
    forall keys | IsAscending(keys, seen.Keys) :: Collect(seen, keys, frameBits) == (frames, failures)
  }

  method DecodeFrames(rows: seq<Row>, frameBits: int, edge: Edge)
    returns (frames: seq<int>, failures: seq<MissingBits>)
    ensures Decodes(rows, frameBits, edge, frames, failures)
  {
    var bitsByFrame: map<int, BitMap> := map[];
    var i := 1;
    while i < |rows|
      invariant 1 <= i && (i <= |rows| || i == 1)
      invariant bitsByFrame == if i <= |rows| then Sampled(rows[..i], edge) else map[]
    {
      var previous, current := rows[i - 1], rows[i];
      assert rows[..i + 1][..i] == rows[..i];
      if IsActiveEdge(previous, current, edge) && current.frameIndex >= 0 && current.bitIndex >= 0 {
        var f := current.frameIndex;
        if f !in bitsByFrame {
          bitsByFrame := bitsByFrame[f := map[]];
        }
        bitsByFrame := bitsByFrame[f := bitsByFrame[f][current.bitIndex := And(current.data, 1)]];
      }
      i := i + 1;
    }
    assert |rows| >= 1 ==> rows[..i] == rows;

    var keys := SortedKeys(bitsByFrame.Keys);
    frames, failures := [], [];
    for j := 0 to |keys|
      invariant forall k :: k in keys[..j] ==> k in bitsByFrame
      invariant (frames, failures) == Collect(bitsByFrame, keys[..j], frameBits)
    {
      var bits := bitsByFrame[keys[j]];
      assert keys[..j + 1][..j] == keys[..j];
      var missing := Missing(bits, Times(frameBits));
      if missing != [] {
        failures := failures + [MissingBits(keys[j], FirstEight(missing))];
      } else {
        var frame := 0;
        for bitIndex := 0 to Times(frameBits)
          invariant Missing(bits, bitIndex) == [] && frame == Assemble(bits, bitIndex)
        {
          MissingPrefix(bits, bitIndex + 1, Times(frameBits));
          frame := Or(Shl(frame, 1), bits[bitIndex]);
        }
        frames := frames + [frame];
      }
    }
    assert keys[..|keys|] == keys;
    forall other | IsAscending(other, bitsByFrame.Keys) ensures other == keys {
      AscendingIsUnique(other, keys, bitsByFrame.Keys);
    }
  }

  lemma {:induction false} MissingPrefix(bits: BitMap, m: nat, n: nat)
    requires m <= n && Missing(bits, n) == []
    ensures Missing(bits, m) == []
    decreases n
  {
    if m < n { MissingPrefix(bits, m, n - 1); }
  }

  // ----- decoding does not look at the times -----

  lemma {:induction false} StampKeepsSignals(samples: seq<Row>, i: nat)
    requires i < |samples|
    ensures Stamp(samples)[i] == samples[i].(timeNs := Stamp(samples)[i].timeNs)
  {
    if i < |samples| - 1 {
      StampKeepsSignals(samples[..|samples| - 1], i);
    }
  }

  lemma {:induction false} SampledIgnoresTimes(samples: seq<Row>, edge: Edge)
    ensures Sampled(Stamp(samples), edge) == Sampled(samples, edge)
  {
    var n := |samples|;
    if n >= 2 {
      var rows := Stamp(samples);
      assert rows[..n - 1] == Stamp(samples[..n - 1]);
      SampledIgnoresTimes(samples[..n - 1], edge);
      StampKeepsSignals(samples, n - 1);
      StampKeepsSignals(samples, n - 2);
    }
  }

  // ----- what the generated blocks contribute -----

  lemma SampledAppend(samples: seq<Row>, row: Row, edge: Edge)
    requires samples != []
    ensures Sampled(samples + [row], edge) == Observe(Sampled(samples, edge), Last(samples), row, edge)
  {
    assert (samples + [row])[..|samples|] == samples;
  }

  /** The clock is low at the end. */
  ghost predicate EndsLow(samples: seq<Row>) {
    samples != [] && Last(samples).clk == 0
  }

  lemma {:induction false} IdleAddsNothing(samples: seq<Row>, time: int, half: int, data: int, f: int, n: nat, edge: Edge)
    requires EndsLow(samples)
    ensures EndsLow(samples + IdleSamples(time, half, data, f, n))
    ensures Sampled(samples + IdleSamples(time, half, data, f, n), edge) == Sampled(samples, edge)
  {
    if n == 0 {
      assert samples + [] == samples;
    } else {
      IdleAddsNothing(samples, time, half, data, f, n - 1, edge);
      var before := samples + IdleSamples(time, half, data, f, n - 1);
      var t := Advance(time, half, 2 * n - 2);
      var high, low := Row(t + half, 1, data, f, -1), Row(t + half + half, 0, data, f, -1);
      SampledAppend(before, high, edge);
      SampledAppend(before + [high], low, edge);
      assert samples + IdleSamples(time, half, data, f, n) == before + [high] + [low];
    }
  }

  function BitsSeen(bits: seq<int>, n: nat): BitMap
    requires n <= |bits|
  {
    map b: int | 0 <= b < n :: bits[b]
  }

  function SetBit(seen: map<int, BitMap>, f: int, b: int, bit: int): map<int, BitMap> {
    seen[f := (if f in seen then seen[f] else map[])[b := bit]]
  }

  /** The three samples of one bit record it once, whichever edge is sampled. */
  lemma BitIsRecorded(samples: seq<Row>, t: int, half: int, bit: int, f: int, b: nat, edge: Edge)
    requires EndsLow(samples) && f >= 0 && And(bit, 1) == bit
    ensures EndsLow(samples + BitSample(t, half, bit, f, b))
    ensures Sampled(samples + BitSample(t, half, bit, f, b), edge) == SetBit(Sampled(samples, edge), f, b, bit)
  {
    var setup, high, low := Row(t, 0, bit, f, b), Row(t + half, 1, bit, f, b), Row(t + half + half, 0, bit, f, b);
    SampledAppend(samples, setup, edge);
    SampledAppend(samples + [setup], high, edge);
    SampledAppend(samples + [setup] + [high], low, edge);
    assert samples + BitSample(t, half, bit, f, b) == samples + [setup] + [high] + [low];
  }

  /** All elements are single bits. */
  ghost predicate Binary(bits: seq<int>) {
    forall b :: 0 <= b < |bits| ==> And(bits[b], 1) == bits[b]
  }

  function WithFrame(seen: map<int, BitMap>, f: int, bits: seq<int>, n: nat): map<int, BitMap>
    requires n <= |bits|
  {
    if n == 0 then seen else seen[f := BitsSeen(bits, n)]
  }

  lemma {:induction false} BitsAreRecorded(samples: seq<Row>, time: int, half: int, bits: seq<int>, f: int, n: nat, edge: Edge)
    requires EndsLow(samples) && n <= |bits| && f >= 0 && Binary(bits)
    requires f !in Sampled(samples, edge)
    ensures EndsLow(samples + BitSamples(time, half, bits, f, n))
    ensures Sampled(samples + BitSamples(time, half, bits, f, n), edge) == WithFrame(Sampled(samples, edge), f, bits, n)
  {
    if n == 0 {
      assert samples + [] == samples;
    } else {
      BitsAreRecorded(samples, time, half, bits, f, n - 1, edge);
      var before := BitSamples(time, half, bits, f, n - 1);
      var t := Advance(time, half, 2 * n - 2);
      BitIsRecorded(samples + before, t, half, bits[n - 1], f, n - 1, edge);
      Associate(samples, before, BitSample(t, half, bits[n - 1], f, n - 1));
      WithOneMore(Sampled(samples, edge), f, bits, n);
    }
  }

  lemma WithOneMore(seen: map<int, BitMap>, f: int, bits: seq<int>, n: nat)
    requires 0 < n <= |bits| && f !in seen
    ensures SetBit(WithFrame(seen, f, bits, n - 1), f, n - 1, bits[n - 1]) == WithFrame(seen, f, bits, n)
  {
    var earlier := if n == 1 then map[] else BitsSeen(bits, n - 1);
    assert earlier[n - 1 := bits[n - 1]] == BitsSeen(bits, n);
  }

  lemma AndOfOne()
    ensures And(0, 1) == 0 && And(1, 1) == 1
    ensures Mask(1) == 1 && Pow2(1) == 2 && Bit(1, 0)
  {
  }

  lemma BitIsBit(v: int)
    ensures And(v, 1) == (if Bit(v, 0) then 1 else 0)
    ensures And(And(v, 1), 1) == And(v, 1)
  {
    hide And;
    AndOfOne();
    LowBitsFit(v, 1);
    BitOfAnd(v, 1, 0);
  }

  /** What the decoder must have seen after n frames: exactly their bits. */
  ghost predicate HasFrames(seen: map<int, BitMap>, w: Wave, frames: seq<int>, n: nat)
    requires n <= |frames|
  {
    && (forall f: int :: f in seen <==> 0 <= f < n)
    && (forall f: int :: 0 <= f < n ==> seen[f] == FrameSeen(w, frames[f]))
  }

  function FrameSeen(w: Wave, frame: int): BitMap {
    BitsSeen(FrameBitsMsb(frame, w.frameBits), Times(w.frameBits))
  }

  lemma FrameBitsAreBinary(frame: int, frameBits: int)
    ensures Binary(FrameBitsMsb(frame, frameBits))
  {
    forall b | 0 <= b < Times(frameBits)
      ensures And(FrameBitsMsb(frame, frameBits)[b], 1) == FrameBitsMsb(frame, frameBits)[b] {
      BitIsBit(Shr(frame, frameBits - 1 - b));
    }
  }

  lemma OneFrameIsSeen(samples: seq<Row>, w: Wave, start: int, half: int, level: int, bits: seq<int>, f: nat, edge: Edge)
    requires EndsLow(samples) && Binary(bits) && bits != [] && f !in Sampled(samples, edge)
    ensures EndsLow(AddFrame(samples, w, start, half, level, bits, f))
    ensures Sampled(AddFrame(samples, w, start, half, level, bits, f), edge) == Sampled(samples, edge)[f := BitsSeen(bits, |bits|)]
  {
    IdleAddsNothing(samples, start, half, level, f, Times(w.idleBits), edge);
    BitsAreRecorded(samples + IdleSamples(start, half, level, f, Times(w.idleBits)),
                    Advance(start, half, 2 * Times(w.idleBits)), half, bits, f, |bits|, edge);
  }

  lemma FrameIsSeen(samples: seq<Row>, w: Wave, start: int, half: int, level: int, frames: seq<int>, n: nat, edge: Edge)
    requires w.frameBits >= 1 && 0 < n <= |frames|
    requires EndsLow(samples) && HasFrames(Sampled(samples, edge), w, frames, n - 1)
    ensures var all := AddFrame(samples, w, start, half, level, FrameBitsMsb(frames[n - 1], w.frameBits), n - 1);
            EndsLow(all) && HasFrames(Sampled(all, edge), w, frames, n)
  {
    hide EndsLow, Sampled, AddFrame, Binary, HasFrames;
    FrameBitsAreBinary(frames[n - 1], w.frameBits);
    OneMoreFrame(Sampled(samples, edge), w, frames, n);
    OneFrameIsSeen(samples, w, start, half, level, FrameBitsMsb(frames[n - 1], w.frameBits), n - 1, edge);
  }

  lemma {:induction false} GeneratedIsSeen(w: Wave, half: int, frames: seq<int>, n: nat, edge: Edge)
    requires w.frameBits >= 1 && n <= |frames|
    ensures EndsLow(Samples(w, half, frames, n))
    ensures HasFrames(Sampled(Samples(w, half, frames, n), edge), w, frames, n)
  {
    hide HasFrames, FrameBitsMsb, RestLevel, StartTime, AddFrame;
    if n == 0 {
      NothingIsSeen(w, frames);
    } else {
      GeneratedIsSeen(w, half, frames, n - 1, edge);
      FrameIsSeen(Samples(w, half, frames, n - 1), w, StartTime(w, half, n - 1), half, RestLevel(w, frames, n - 1), frames, n, edge);
    }
  }

  lemma NothingIsSeen(w: Wave, frames: seq<int>)
    ensures HasFrames(map[], w, frames, 0)
  {
  }

  lemma OneMoreFrame(seen: map<int, BitMap>, w: Wave, frames: seq<int>, n: nat)
    requires 0 < n <= |frames| && HasFrames(seen, w, frames, n - 1)
    ensures n - 1 !in seen && HasFrames(seen[n - 1 := FrameSeen(w, frames[n - 1])], w, frames, n)
  {
  }

  lemma {:induction false} NothingMissing(bits: BitMap, n: nat)
    requires forall b :: 0 <= b < n ==> b in bits
    ensures Missing(bits, n) == []
  {
    if n > 0 { NothingMissing(bits, n - 1); }
  }

  /** Reassembling the top n bits of a frame. */
  lemma {:induction false} AssembleIsFrame(frame: int, frameBits: nat, n: nat)
    requires n <= frameBits
    ensures Missing(BitsSeen(FrameBitsMsb(frame, frameBits), frameBits), n) == []
    ensures Assemble(BitsSeen(FrameBitsMsb(frame, frameBits), frameBits), n) == And(Shr(frame, frameBits - n), Mask(n))
  {
    var seen := BitsSeen(FrameBitsMsb(frame, frameBits), frameBits);
    NothingMissing(seen, n);
    var top := And(Shr(frame, frameBits - n), Mask(n));
    if n == 0 {
      assert Mask(0) == 0;
    } else {
      AssembleIsFrame(frame, frameBits, n - 1);
      var before := And(Shr(frame, frameBits - (n - 1)), Mask(n - 1));
      var bit := seen[n - 1];
      assert bit == And(Shr(frame, frameBits - n), 1);
      BitIsBit(Shr(frame, frameBits - n));
      forall k: nat ensures Bit(Or(Shl(before, 1), bit), k) == Bit(top, k) {
        BitOfOr(Shl(before, 1), bit, k);
        BitOfShl(before, 1, k);
        BitOfAnd(Shr(frame, frameBits - n), Mask(n), k);
        BitOfMask(n, k);
        BitOfShr(frame, frameBits - n, k);
        if k > 0 {
          BitOfConst(k - 1);
          BitOfAnd(Shr(frame, frameBits - (n - 1)), Mask(n - 1), k - 1);
          BitOfMask(n - 1, k - 1);
          BitOfShr(frame, frameBits - (n - 1), k - 1);
        } else {
          BitOfShr(frame, frameBits - n, 0);
        }
      }
      BitsDetermine(Or(Shl(before, 1), bit), top);
    }
  }

  function Counting(n: nat): seq<int> { seq(n, i => i) }

  /** What a frame looks like after a trip through `frameBits` bits. */
  function Carried(frames: seq<int>, frameBits: nat): seq<int> {
    seq(|frames|, i requires 0 <= i < |frames| => And(frames[i], Mask(frameBits)))
  }

  /** Key f holds all bits of this frame. */
  ghost predicate Complete(seen: map<int, BitMap>, f: int, frame: int, frameBits: nat) {
    && f in seen
    && Missing(seen[f], frameBits) == []
    && Assemble(seen[f], frameBits) == And(frame, Mask(frameBits))
  }

  lemma SeenIsComplete(seen: map<int, BitMap>, w: Wave, frames: seq<int>, f: nat)
    requires w.frameBits >= 1 && f < |frames| && HasFrames(seen, w, frames, |frames|)
    ensures Complete(seen, f, frames[f], w.frameBits)
  {
    AssembleIsFrame(frames[f], w.frameBits, w.frameBits);
  }

  lemma CollectAppend(seen: map<int, BitMap>, keys: seq<int>, key: int, frameBits: int)
    requires key in seen && forall k :: k in keys ==> k in seen
    requires Missing(seen[key], Times(frameBits)) == []
    ensures Collect(seen, keys + [key], frameBits)
         == (Collect(seen, keys, frameBits).0 + [Assemble(seen[key], Times(frameBits))], Collect(seen, keys, frameBits).1)
  {
    assert (keys + [key])[..|keys|] == keys;
  }

  lemma CarriedAppend(frames: seq<int>, n: nat, frameBits: nat)
    requires 0 < n <= |frames|
    ensures Carried(frames[..n], frameBits) == Carried(frames[..n - 1], frameBits) + [And(frames[n - 1], Mask(frameBits))]
  {
  }

  lemma {:induction false} CollectsAll(seen: map<int, BitMap>, frames: seq<int>, frameBits: nat, n: nat)
    requires n <= |frames|
    requires forall f :: 0 <= f < n ==> Complete(seen, f, frames[f], frameBits)
    ensures forall k :: k in Counting(n) ==> k in seen
    ensures Collect(seen, Counting(n), frameBits) == (Carried(frames[..n], frameBits), [])
  {
    if n == 0 {
      assert Carried(frames[..0], frameBits) == [];
    } else {
      CollectsAll(seen, frames, frameBits, n - 1);
      assert Complete(seen, n - 1, frames[n - 1], frameBits);
      CollectAppend(seen, Counting(n - 1), n - 1, frameBits);
      assert Counting(n) == Counting(n - 1) + [n - 1];
      CarriedAppend(frames, n, frameBits);
    }
  }

  lemma CountingAscends(n: nat, keys: set<int>)
    requires forall k :: k in keys <==> 0 <= k < n
    ensures IsAscending(Counting(n), keys)
  {
    forall k ensures k in Counting(n) <==> k in keys {
      if 0 <= k < n { assert Counting(n)[k] == k; }
    }
  }

  /** Decoding the generated rows on either edge gives back every frame, cut to `frameBits` bits, with no failure. */
  lemma WaveformRoundTrip(w: Wave, frames: seq<int>, edge: Edge)
    requires w.clockHz != 0 && w.frameBits >= 1
    ensures Decodes(Stamp(Samples(w, HalfPeriod(w.clockHz), frames, |frames|)), w.frameBits, edge,
                    Carried(frames, w.frameBits), [])
  {
    SampledIgnoresTimes(Samples(w, HalfPeriod(w.clockHz), frames, |frames|), edge);
    GeneratedIsSeen(w, HalfPeriod(w.clockHz), frames, |frames|, edge);
    assert frames[..|frames|] == frames;
    var seen := Sampled(Samples(w, HalfPeriod(w.clockHz), frames, |frames|), edge);
    forall f | 0 <= f < |frames| ensures Complete(seen, f, frames[f], w.frameBits) { SeenIsComplete(seen, w, frames, f); }
    CollectsAll(seen, frames, w.frameBits, |frames|);
    CountingAscends(|frames|, seen.Keys);
    forall keys | IsAscending(keys, seen.Keys) ensures keys == Counting(|frames|) {
      AscendingIsUnique(keys, Counting(|frames|), seen.Keys);
    }
  }

  /** The frames come back unchanged exactly when each of them fits in `frameBits` bits. */
  lemma CarriedUnchangedIffFits(frames: seq<int>, frameBits: nat)
    ensures Carried(frames, frameBits) == frames <==> forall i :: 0 <= i < |frames| ==> 0 <= frames[i] < Pow2(frameBits)
  {
    forall i | 0 <= i < |frames| ensures And(frames[i], Mask(frameBits)) == frames[i] <==> 0 <= frames[i] < Pow2(frameBits) {
      LowBitsFit(frames[i], frameBits);
      if 0 <= frames[i] < Pow2(frameBits) {
        HighBitsClear(frames[i], frameBits);
        BitsOfMask(frameBits);
        BitsOfAnd(frames[i], Mask(frameBits));
        BitsDetermine(And(frames[i], Mask(frameBits)), frames[i]);
      }
    }
    if Carried(frames, frameBits) == frames {
      forall i | 0 <= i < |frames| ensures 0 <= frames[i] < Pow2(frameBits) {
        assert Carried(frames, frameBits)[i] == frames[i];
      }
    }
  }

  // ----- timing -----

  lemma {:induction false} TimesIncrease(samples: seq<Row>, i: nat)
    requires i + 1 < |samples|
    ensures Stamp(samples)[i].timeNs < Stamp(samples)[i + 1].timeNs
  {
    if i + 2 < |samples| {
      TimesIncrease(samples[..|samples| - 1], i);
    }
  }

  /** Neighbouring samples are simultaneous or at least 2 ns apart, and no three are simultaneous. */
  ghost predicate Paced(samples: seq<Row>) {
    forall i :: 1 <= i < |samples| ==>
      (Gap(samples, i) == 0 || Gap(samples, i) >= 2) && (Gap(samples, i) == 0 && i >= 2 ==> Gap(samples, i - 1) >= 2)
  }

  function Gap(samples: seq<Row>, i: nat): int
    requires 1 <= i < |samples|
  {
    samples[i].timeNs - samples[i - 1].timeNs
  }

  ghost predicate Settled(samples: seq<Row>) {
    |samples| >= 2 ==> Gap(samples, |samples| - 1) >= 2
  }

  /** A paced list is only disturbed where two samples coincide, and then by 1 ns. */
  lemma {:induction false} PacedStamps(samples: seq<Row>, i: nat)
    requires Paced(samples) && i < |samples|
    ensures Stamp(samples)[i].timeNs == samples[i].timeNs + (if i > 0 && Gap(samples, i) == 0 then 1 else 0)
  {
    var n := |samples| - 1;
    var front := samples[..n];
    assert forall j :: 1 <= j < n ==> Gap(front, j) == Gap(samples, j);
    if i < n {
      PacedStamps(front, i);
    } else if n > 0 {
      PacedStamps(front, n - 1);
      if n >= 2 { assert Gap(samples, n) == 0 || Gap(samples, n) >= 2; }
    }
  }

  lemma PacedAppend(samples: seq<Row>, row: Row)
    requires samples != [] && Paced(samples)
    requires row.timeNs >= Last(samples).timeNs + 2 || (row.timeNs == Last(samples).timeNs && Settled(samples))
    ensures Paced(samples + [row])
    ensures row.timeNs >= Last(samples).timeNs + 2 ==> Settled(samples + [row])
  {
    var all := samples + [row];
    assert forall i :: 1 <= i < |samples| ==> Gap(all, i) == Gap(samples, i);
    assert Gap(all, |samples|) == row.timeNs - Last(samples).timeNs;
  }

  /** The list is paced, ends on a settled sample, and that sample is at `time`. */
  ghost predicate PacedTo(samples: seq<Row>, time: int) {
    samples != [] && Paced(samples) && Settled(samples) && Last(samples).timeNs == time
  }

  lemma {:induction false} IdleKeepsPace(samples: seq<Row>, time: int, half: int, data: int, f: int, n: nat)
    requires PacedTo(samples, time) && half >= 2
    ensures PacedTo(samples + IdleSamples(time, half, data, f, n), Advance(time, half, 2 * n))
  {
    if n == 0 {
      assert samples + [] == samples;
    } else {
      IdleKeepsPace(samples, time, half, data, f, n - 1);
      var before := samples + IdleSamples(time, half, data, f, n - 1);
      var t := Advance(time, half, 2 * n - 2);
      var high, low := Row(t + half, 1, data, f, -1), Row(t + half + half, 0, data, f, -1);
      assert samples + IdleSamples(time, half, data, f, n) == before + [high] + [low];
      hide IdleSamples, Advance;
      PacedAppend(before, high);
      PacedAppend(before + [high], low);
      AdvanceTwo(time, half, 2 * n - 2);
    }
  }

  lemma BitKeepsPace(samples: seq<Row>, t: int, half: int, bit: int, f: int, b: int)
    requires PacedTo(samples, t) && half >= 2
    ensures PacedTo(samples + BitSample(t, half, bit, f, b), t + half + half)
  {
    var setup, high, low := Row(t, 0, bit, f, b), Row(t + half, 1, bit, f, b), Row(t + half + half, 0, bit, f, b);
    PacedAppend(samples, setup);
    PacedAppend(samples + [setup], high);
    PacedAppend(samples + [setup] + [high], low);
    assert samples + BitSample(t, half, bit, f, b) == samples + [setup] + [high] + [low];
  }

  lemma {:induction false} BitsKeepPace(samples: seq<Row>, time: int, half: int, bits: seq<int>, f: int, n: nat)
    requires PacedTo(samples, time) && half >= 2
    requires n <= |bits|
    ensures PacedTo(samples + BitSamples(time, half, bits, f, n), Advance(time, half, 2 * n))
  {
    if n == 0 {
      assert samples + [] == samples;
    } else {
      BitsKeepPace(samples, time, half, bits, f, n - 1);
      var before, t := BitSamples(time, half, bits, f, n - 1), Advance(time, half, 2 * n - 2);
      BitKeepsPace(samples + before, t, half, bits[n - 1], f, n - 1);
      AdvanceTwo(time, half, 2 * n - 2);
      Associate(samples, before, BitSample(t, half, bits[n - 1], f, n - 1));
    }
  }

  lemma {:induction false} SamplesArePaced(w: Wave, half: int, frames: seq<int>, n: nat)
    requires half >= 2 && n <= |frames|
    ensures PacedTo(Samples(w, half, frames, n), StartTime(w, half, n))
  {
    if n > 0 {
      SamplesArePaced(w, half, frames, n - 1);
      var start, bits := StartTime(w, half, n - 1), FrameBitsMsb(frames[n - 1], w.frameBits);
      var level := RestLevel(w, frames, n - 1);
      var before := Samples(w, half, frames, n - 1);
      IdleKeepsPace(before, start, half, level, n - 1, Times(w.idleBits));
      BitsKeepPace(before + IdleSamples(start, half, level, n - 1, Times(w.idleBits)),
                   Advance(start, half, 2 * Times(w.idleBits)), half, bits, n - 1, |bits|);
    }
  }

  /** Row times strictly increase for every clock; with a half period of at least 2 ns each row
      lies on its nominal time or 1 ns after it. */
  lemma RowTimes(w: Wave, frames: seq<int>)
    requires w.clockHz != 0
    ensures var samples := Samples(w, HalfPeriod(w.clockHz), frames, |frames|);
            var rows := Stamp(samples);
            && (forall i :: 0 <= i < |rows| - 1 ==> rows[i].timeNs < rows[i + 1].timeNs)
            && (HalfPeriod(w.clockHz) >= 2 ==>
                forall i :: 0 <= i < |rows| ==> samples[i].timeNs <= rows[i].timeNs <= samples[i].timeNs + 1)
  {
    var samples := Samples(w, HalfPeriod(w.clockHz), frames, |frames|);
    forall i | 0 <= i < |samples| - 1 ensures Stamp(samples)[i].timeNs < Stamp(samples)[i + 1].timeNs {
      TimesIncrease(samples, i);
    }
    if HalfPeriod(w.clockHz) >= 2 {
      SamplesArePaced(w, HalfPeriod(w.clockHz), frames, |frames|);
      forall i | 0 <= i < |samples| ensures samples[i].timeNs <= Stamp(samples)[i].timeNs <= samples[i].timeNs + 1 {
        PacedStamps(samples, i);
      }
    }
  }
}
