/** The shape of a generated waveform, row by row, and what the decoder makes of any rows at all. */
module BissShape {
  import opened Bits
  import opened BissWave

  // ----- where the rows of a waveform lie -----

  lemma {:induction false} AdvanceIs(time: int, half: int, n: nat)
    ensures Advance(time, half, n) == time + half * n
  {
    if n > 0 { AdvanceIs(time, half, n - 1); }
  }

  lemma {:induction false} IdleRows(time: int, half: int, data: int, f: int, n: nat)
    ensures |IdleSamples(time, half, data, f, n)| == 2 * n
    ensures forall i :: 0 <= i < 2 * n ==>
              IdleSamples(time, half, data, f, n)[i] == Row(time + half * (i + 1), if i % 2 == 0 then 1 else 0, data, f, -1)
  {
    if n > 0 {
      IdleRows(time, half, data, f, n - 1);
      AdvanceIs(time, half, 2 * n - 2);
      var last := time + half * (2 * n - 2);
      assert last + half == time + half * (2 * n - 1) && last + half + half == time + half * (2 * n);
    }
  }

  /** The three rows of a bit: data set up while the clock is low, then a pulse. */
  function BitRow(time: int, half: int, bits: seq<int>, f: int, i: nat): Row
    requires i < 3 * |bits|
  {
    Row(time + half * (2 * (i / 3) + i % 3), if i % 3 == 1 then 1 else 0, bits[i / 3], f, i / 3)
  }

  lemma {:induction false} BitRows(time: int, half: int, bits: seq<int>, f: int, n: nat)
    requires n <= |bits|
    ensures |BitSamples(time, half, bits, f, n)| == 3 * n
    ensures forall i :: 0 <= i < 3 * n ==> BitSamples(time, half, bits, f, n)[i] == BitRow(time, half, bits, f, i)
  {
    if n > 0 {
      BitRows(time, half, bits, f, n - 1);
      AdvanceIs(time, half, 2 * n - 2);
      var t := Advance(time, half, 2 * n - 2);
      ThreeRows(time, half, bits, f, n, t);
    }
  }

  lemma ThreeRows(time: int, half: int, bits: seq<int>, f: int, n: nat, t: int)
    requires 0 < n <= |bits| && t == time + half * (2 * n - 2)
    ensures BitSample(t, half, bits[n - 1], f, n - 1)
         == [BitRow(time, half, bits, f, 3 * n - 3), BitRow(time, half, bits, f, 3 * n - 2), BitRow(time, half, bits, f, 3 * n - 1)]
  {
    assert (3 * n - 3) / 3 == n - 1 && (3 * n - 2) / 3 == n - 1 && (3 * n - 1) / 3 == n - 1;
    assert t + half == time + half * (2 * n - 1) && t + half + half == time + half * (2 * n);
  }

  /** The half periods and the rows of one frame. */
  function Halves(w: Wave): nat { 2 * Times(w.idleBits) + 2 * Times(w.frameBits) }

  function RowsPerFrame(w: Wave): nat { 2 * Times(w.idleBits) + 3 * Times(w.frameBits) }

  lemma {:induction false} StartIs(w: Wave, half: int, n: nat)
    ensures StartTime(w, half, n) == half * (Halves(w) * n)
  {
    if n > 0 {
      StartIs(w, half, n - 1);
      var i, b := 2 * Times(w.idleBits), 2 * Times(w.frameBits);
      AdvanceIs(StartTime(w, half, n - 1), half, i);
      AdvanceIs(Advance(StartTime(w, half, n - 1), half, i), half, b);
      assert Halves(w) * n == Halves(w) * (n - 1) + i + b;
      assert half * (Halves(w) * (n - 1) + i + b) == half * (Halves(w) * (n - 1)) + half * i + half * b;
    } else {
      assert Halves(w) * 0 == 0;
    }
  }

  /** There are no other rows. */
  lemma {:induction false} RowCount(w: Wave, half: int, frames: seq<int>, n: nat)
    requires n <= |frames|
    ensures |Samples(w, half, frames, n)| == 1 + RowsPerFrame(w) * n
  {
    if n > 0 {
      RowCount(w, half, frames, n - 1);
      FrameRows(Samples(w, half, frames, n - 1), w, StartTime(w, half, n - 1), half, RestLevel(w, frames, n - 1),
                FrameBitsMsb(frames[n - 1], w.frameBits), n - 1);
      assert RowsPerFrame(w) * n == RowsPerFrame(w) * (n - 1) + RowsPerFrame(w);
    } else {
      assert RowsPerFrame(w) * 0 == 0;
    }
  }

  /** The rows a frame adds. */
  ghost predicate FrameAdds(all: seq<Row>, before: seq<Row>, w: Wave, start: int, half: int, level: int, bits: seq<int>, f: int) {
    && |all| == |before| + 2 * Times(w.idleBits) + 3 * |bits| && all[..|before|] == before
    && forall i :: 0 <= i < |all| - |before| ==> all[|before| + i] == AddedRow(w, start, half, level, bits, f, i)
  }

  function AddedRow(w: Wave, start: int, half: int, level: int, bits: seq<int>, f: int, i: nat): Row
    requires i < 2 * Times(w.idleBits) + 3 * |bits|
  {
    var idle := 2 * Times(w.idleBits);
    if i < idle then Row(start + half * (i + 1), if i % 2 == 0 then 1 else 0, level, f, -1)
    else BitRow(start + half * idle, half, bits, f, i - idle)
  }

  lemma FrameRows(before: seq<Row>, w: Wave, start: int, half: int, level: int, bits: seq<int>, f: int)
    ensures FrameAdds(AddFrame(before, w, start, half, level, bits, f), before, w, start, half, level, bits, f)
  {
    var n := Times(w.idleBits);
    var idle, clocked := IdleSamples(start, half, level, f, n), BitSamples(Advance(start, half, 2 * n), half, bits, f, |bits|);
    IdleRows(start, half, level, f, n);
    AdvanceIs(start, half, 2 * n);
    BitRows(Advance(start, half, 2 * n), half, bits, f, |bits|);
    hide IdleSamples, BitSamples, Advance, BitRow;
    var all := AddFrame(before, w, start, half, level, bits, f);
    assert all == before + idle + clocked;
    forall i | 0 <= i < |all| - |before| ensures all[|before| + i] == AddedRow(w, start, half, level, bits, f, i) {
      assert all[|before| + i] == if i < 2 * n then idle[i] else clocked[i - 2 * n];
    }
  }

  lemma {:induction false} SamplesGrow(w: Wave, half: int, frames: seq<int>, m: nat, n: nat)
    requires m <= n <= |frames|
    ensures Samples(w, half, frames, m) <= Samples(w, half, frames, n)
    decreases n
  {
    if m < n { SamplesGrow(w, half, frames, m, n - 1); }
  }

  lemma FrameBitIs(frame: int, frameBits: int, b: nat)
    requires b < frameBits
    ensures FrameBit(frame, frameBits, b) == if Bit(frame, frameBits - 1 - b) then 1 else 0
  {
    BitOfShr(frame, frameBits - 1 - b, 0);
    BitIsBit(Shr(frame, frameBits - 1 - b));
  }

  /** The level the line rests at: high before the first frame, then at the last bit of the frame before. */
  lemma RestsAtLastBit(w: Wave, frames: seq<int>, f: nat)
    requires w.frameBits >= 1 && f < |frames|
    ensures RestLevel(w, frames, f) == if f == 0 || Bit(frames[f - 1], 0) then 1 else 0
  {
    if f > 0 { FrameBitIs(frames[f - 1], w.frameBits, w.frameBits - 1); }
  }

  /** Row i of frame f. Before each frame the clock idles with the line at rest, one pulse a bit time; then each bit of the frame,
      most significant first, is put on the line and clocked by a pulse. */
  function NominalRow(w: Wave, half: int, frames: seq<int>, f: nat, i: nat): Row
    requires f < |frames| && w.frameBits >= 1 && i < RowsPerFrame(w)
  {
    var start, idle := half * (Halves(w) * f), 2 * Times(w.idleBits);
    if i < idle then
      Row(start + half * (i + 1), if i % 2 == 0 then 1 else 0, if f == 0 || Bit(frames[f - 1], 0) then 1 else 0, f, -1)
    else
      var b, j := (i - idle) / 3, (i - idle) % 3;
      Row(start + half * idle + half * (2 * b + j), if j == 1 then 1 else 0, if Bit(frames[f], w.frameBits - 1 - b) then 1 else 0, f, b)
  }

  lemma AddedIsNominal(w: Wave, half: int, frames: seq<int>, f: nat, i: nat)
    requires f < |frames| && w.frameBits >= 1 && i < RowsPerFrame(w)
    ensures AddedRow(w, StartTime(w, half, f), half, RestLevel(w, frames, f), FrameBitsMsb(frames[f], w.frameBits), f, i)
         == NominalRow(w, half, frames, f, i)
  {
    StartIs(w, half, f);
    RestsAtLastBit(w, frames, f);
    hide StartTime, RestLevel, FrameBit, Bit, Halves;
    var idle := 2 * Times(w.idleBits);
    if i >= idle {
      var b := (i - idle) / 3;
      FrameBitIs(frames[f], w.frameBits, b);
      assert FrameBitsMsb(frames[f], w.frameBits)[b] == FrameBit(frames[f], w.frameBits, b);
    }
  }

  lemma OwnRows(w: Wave, half: int, frames: seq<int>, f: nat)
    requires f < |frames| && w.frameBits >= 1
    ensures var own, at := Samples(w, half, frames, f + 1), |Samples(w, half, frames, f)|;
            |own| == at + RowsPerFrame(w) && forall i :: 0 <= i < RowsPerFrame(w) ==> own[at + i] == NominalRow(w, half, frames, f, i)
  {
    var before, bits := Samples(w, half, frames, f), FrameBitsMsb(frames[f], w.frameBits);
    FrameRows(before, w, StartTime(w, half, f), half, RestLevel(w, frames, f), bits, f);
    var own := Samples(w, half, frames, f + 1);
    assert own == AddFrame(before, w, StartTime(w, half, f), half, RestLevel(w, frames, f), bits, f);
    assert |bits| == w.frameBits;
    hide Samples, AddFrame, RestLevel, StartTime, FrameBitsMsb, NominalRow, AddedRow;
    forall i | 0 <= i < RowsPerFrame(w) ensures own[|before| + i] == NominalRow(w, half, frames, f, i) {
      AddedIsNominal(w, half, frames, f, i);
    }
  }

  /** Every row of a generated waveform: one at the start, and then frame by frame, each after as many half periods as the frames
      before it and their idle times have, the rows just said. */
  lemma RowsOfFrame(w: Wave, half: int, frames: seq<int>, f: nat)
    requires f < |frames| && w.frameBits >= 1
    ensures var rows, at := Samples(w, half, frames, |frames|), |Samples(w, half, frames, f)|;
            && 0 < at && at + RowsPerFrame(w) <= |rows| && rows[0] == Row(0, 0, 1, -1, -1)
            && forall i :: 0 <= i < RowsPerFrame(w) ==> rows[at + i] == NominalRow(w, half, frames, f, i)
  {
    hide NominalRow, RowsPerFrame, AddFrame;
    OwnRows(w, half, frames, f);
    SamplesGrow(w, half, frames, f + 1, |frames|);
    SamplesGrow(w, half, frames, 0, f);
    SamplesGrow(w, half, frames, 0, |frames|);
    assert Samples(w, half, frames, 0) == [Row(0, 0, 1, -1, -1)];
    hide Samples;
    SamePlaces(Samples(w, half, frames, f + 1), Samples(w, half, frames, |frames|));
    SamePlaces(Samples(w, half, frames, 0), Samples(w, half, frames, |frames|));
  }

  lemma SamePlaces(a: seq<Row>, b: seq<Row>)
    requires a <= b
    ensures forall i :: 0 <= i < |a| ==> b[i] == a[i]
  {
  }

  /** The half period is the largest whole number of nanoseconds of which two to a clock period fit into a second. */
  lemma HalfPeriodIsFloor(clockHz: int)
    requires clockHz > 0
    ensures 2 * HalfPeriod(clockHz) * clockHz <= 1_000_000_000 < 2 * (HalfPeriod(clockHz) + 1) * clockHz
  {
    var q := 1_000_000_000 / clockHz;
    var h := q / 2;
    assert q * clockHz <= 1_000_000_000 < (q + 1) * clockHz;
    assert 2 * h <= q && q + 1 <= 2 * (h + 1);
    MonotoneProduct(2 * h, q, clockHz);
    MonotoneProduct(q + 1, 2 * (h + 1), clockHz);
  }

  lemma MonotoneProduct(a: int, b: int, c: nat)
    requires a <= b
    ensures a * c <= b * c
  {
  }

  // ----- what the decoder sees in any rows -----

  /** Row i is an edge at which bit b of frame f is sampled. */
  predicate ShowsBit(rows: seq<Row>, edge: Edge, i: int, f: int, b: int) {
    1 <= i < |rows| && IsActiveEdge(rows[i - 1], rows[i], edge) && rows[i].frameIndex == f && rows[i].bitIndex == b
  }

  /** It is the last such row. */
  ghost predicate LastSample(rows: seq<Row>, edge: Edge, i: int, f: int, b: int) {
    ShowsBit(rows, edge, i, f, b) && forall k :: i < k < |rows| ==> !ShowsBit(rows, edge, k, f, b)
  }

  lemma SampleOfPrefix(rows: seq<Row>, edge: Edge, i: int, f: int, b: int)
    requires |rows| >= 2
    ensures var front := rows[..|rows| - 1];
            ShowsBit(rows, edge, i, f, b) <==> ShowsBit(front, edge, i, f, b) || (i == |rows| - 1 && ShowsBit(rows, edge, i, f, b))
  {
  }

  /** Bit b of frame f has been seen exactly when some active edge shows it, as the last of them shows it. */
  lemma {:induction false} SeenIsLastSample(rows: seq<Row>, edge: Edge, f: int, b: int)
    requires f >= 0 && b >= 0
    ensures var seen := Sampled(rows, edge);
            && ((f in seen && b in seen[f]) <==> exists i :: ShowsBit(rows, edge, i, f, b))
            && (forall i :: LastSample(rows, edge, i, f, b) && f in seen && b in seen[f] ==> seen[f][b] == And(rows[i].data, 1))
  {
    if |rows| >= 2 {
      var n := |rows| - 1;
      var front := rows[..n];
      SeenIsLastSample(front, edge, f, b);
      forall i ensures ShowsBit(rows, edge, i, f, b) <==> ShowsBit(front, edge, i, f, b) || (i == n && ShowsBit(rows, edge, i, f, b)) {
        SampleOfPrefix(rows, edge, i, f, b);
      }
      if ShowsBit(rows, edge, n, f, b) {
        assert Sampled(rows, edge)[f][b] == And(rows[n].data, 1);
      } else {
        forall i | LastSample(rows, edge, i, f, b) ensures LastSample(front, edge, i, f, b) && front[i] == rows[i] {
          assert ShowsBit(front, edge, i, f, b);
          forall k | i < k < |front| ensures !ShowsBit(front, edge, k, f, b) {
            assert !ShowsBit(rows, edge, k, f, b);
          }
        }
      }
    } else {
      assert forall i :: !ShowsBit(rows, edge, i, f, b);
    }
  }

  /** Frames and bits with negative numbers are never seen, and no frame without a bit. */
  lemma {:induction false} NothingElseSeen(rows: seq<Row>, edge: Edge)
    ensures forall f :: f in Sampled(rows, edge) ==> f >= 0 && HasBits(Sampled(rows, edge)[f])
  {
    if |rows| >= 2 {
      var n := |rows| - 1;
      NothingElseSeen(rows[..n], edge);
      var seen := Sampled(rows, edge);
      if IsActiveEdge(rows[n - 1], rows[n], edge) && rows[n].frameIndex >= 0 && rows[n].bitIndex >= 0 {
        assert rows[n].bitIndex in seen[rows[n].frameIndex];
      }
    }
  }

  /** At least one bit, and none with a negative number. */
  ghost predicate HasBits(bits: BitMap) { (exists b :: b in bits) && forall b :: b in bits ==> b >= 0 }

  // ----- incomplete frames -----

  /** The missing bits of a frame, in ascending order. */
  lemma {:induction false} MissingAre(bits: BitMap, n: nat)
    ensures forall b :: b in Missing(bits, n) <==> 0 <= b < n && b !in bits
    ensures forall i, j :: 0 <= i < j < |Missing(bits, n)| ==> Missing(bits, n)[i] < Missing(bits, n)[j]
  {
    if n > 0 {
      MissingAre(bits, n - 1);
      var before := Missing(bits, n - 1);
      forall i | 0 <= i < |before| ensures before[i] < n - 1 {
        assert before[i] in before;
      }
    }
  }

  ghost predicate AllBits(bits: BitMap, n: nat) { forall b :: 0 <= b < n ==> b in bits }

  /** The failure reported for an incomplete frame: its first missing bits, at most eight. */
  ghost predicate Reports(failure: MissingBits, seen: map<int, BitMap>, n: nat) {
    && failure.frameIndex in seen && !AllBits(seen[failure.frameIndex], n)
    && 0 < |failure.firstMissing| <= 8
    && (forall i :: 0 <= i < |failure.firstMissing| ==> IsMissing(failure.firstMissing[i], seen[failure.frameIndex], n))
    && (forall i, j :: 0 <= i < j < |failure.firstMissing| ==> failure.firstMissing[i] < failure.firstMissing[j])
    && (|failure.firstMissing| < 8 ==> forall b :: IsMissing(b, seen[failure.frameIndex], n) ==> b in failure.firstMissing)
  }

  ghost predicate IsMissing(b: int, bits: BitMap, n: nat) { 0 <= b < n && b !in bits }

  lemma FirstEightReport(seen: map<int, BitMap>, key: int, n: nat)
    requires key in seen && Missing(seen[key], n) != []
    ensures Reports(MissingBits(key, FirstEight(Missing(seen[key], n))), seen, n)
  {
    MissingAre(seen[key], n);
    var missing := Missing(seen[key], n);
    assert missing[0] in missing;
    forall i | 0 <= i < |missing| ensures IsMissing(missing[i], seen[key], n) {
      assert missing[i] in missing;
    }
  }

  /** The frames and failures collected from the given keys. */
  ghost predicate Sorted(seen: map<int, BitMap>, keys: seq<int>, n: nat, frames: seq<int>, failures: seq<MissingBits>) {
    && |frames| + |failures| == |keys|
    && (forall i :: 0 <= i < |failures| ==> Reports(failures[i], seen, n) && failures[i].frameIndex in keys)
    && (forall key :: key in keys ==> key in seen && (Named(failures, key) <==> !AllBits(seen[key], n)))
  }

  ghost predicate Named(failures: seq<MissingBits>, key: int) { exists i :: 0 <= i < |failures| && failures[i].frameIndex == key }

  lemma CollectStep(seen: map<int, BitMap>, keys: seq<int>, frameBits: int)
    requires keys != [] && forall k :: k in keys ==> k in seen
    ensures forall k :: k in keys[..|keys| - 1] ==> k in seen
    ensures var (frames, failures), key := Collect(seen, keys[..|keys| - 1], frameBits), keys[|keys| - 1];
            var missing := Missing(seen[key], Times(frameBits));
            && (missing != [] ==> Collect(seen, keys, frameBits) == (frames, failures + [MissingBits(key, FirstEight(missing))]))
            && (missing == [] ==> Collect(seen, keys, frameBits) == (frames + [Assemble(seen[key], Times(frameBits))], failures))
  {
  }

  lemma CompleteIff(bits: BitMap, n: nat)
    ensures AllBits(bits, n) <==> Missing(bits, n) == []
  {
    MissingAre(bits, n);
    if Missing(bits, n) != [] { assert Missing(bits, n)[0] in Missing(bits, n); }
  }

  lemma {:induction false} CollectSorts(seen: map<int, BitMap>, keys: seq<int>, frameBits: int)
    requires forall k :: k in keys ==> k in seen
    requires forall i, j :: 0 <= i < j < |keys| ==> keys[i] < keys[j]
    ensures var (frames, failures) := Collect(seen, keys, frameBits); Sorted(seen, keys, Times(frameBits), frames, failures)
  {
    if keys != [] {
      var front, key, n := keys[..|keys| - 1], keys[|keys| - 1], Times(frameBits);
      CollectSorts(seen, front, frameBits);
      CollectStep(seen, keys, frameBits);
      CompleteIff(seen[key], n);
      var (frames, failures) := Collect(seen, front, frameBits);
      assert keys == front + [key] && key !in front;
      hide Collect, Reports, Missing, AllBits, Sorted, Assemble;
      if Missing(seen[key], n) != [] {
        FirstEightReport(seen, key, n);
        OneMoreFailure(seen, front, key, n, frames, failures, MissingBits(key, FirstEight(Missing(seen[key], n))));
      } else {
        OneMoreFrame(seen, front, key, n, frames, failures, Assemble(seen[key], n));
      }
    }
  }

  lemma OneMoreFrame(seen: map<int, BitMap>, keys: seq<int>, key: int, n: nat, frames: seq<int>, failures: seq<MissingBits>, frame: int)
    requires Sorted(seen, keys, n, frames, failures) && key in seen && key !in keys && AllBits(seen[key], n)
    ensures Sorted(seen, keys + [key], n, frames + [frame], failures)
  {
    hide Reports, AllBits;
  }

  lemma OneMoreFailure(seen: map<int, BitMap>, keys: seq<int>, key: int, n: nat, frames: seq<int>, failures: seq<MissingBits>, f: MissingBits)
    requires Sorted(seen, keys, n, frames, failures) && (forall k :: k in keys ==> k in seen) && key in seen && key !in keys
    requires Reports(f, seen, n) && f.frameIndex == key && !AllBits(seen[key], n)
    ensures Sorted(seen, keys + [key], n, frames, failures + [f])
  {
    hide Reports, AllBits;
    var all := failures + [f];
    forall k | k in keys + [key] ensures Named(all, k) <==> !AllBits(seen[k], n) {
      if k == key {
        assert all[|failures|].frameIndex == key;
      } else if Named(failures, k) {
        var i :| 0 <= i < |failures| && failures[i].frameIndex == k;
        assert all[i].frameIndex == k;
      }
    }
  }

  /** Whatever rows are decoded: a frame that was sampled and lacks a bit is reported, with its first missing bits, and yields no
      frame; every other frame that was sampled yields one. */
  lemma IncompleteFramesAreReported(rows: seq<Row>, frameBits: int, edge: Edge, frames: seq<int>, failures: seq<MissingBits>, keys: seq<int>)
    requires Decodes(rows, frameBits, edge, frames, failures) && IsAscending(keys, Sampled(rows, edge).Keys)
    ensures Sorted(Sampled(rows, edge), keys, Times(frameBits), frames, failures)
  {
    hide Sampled, Collect, Sorted;
    CollectSorts(Sampled(rows, edge), keys, frameBits);
  }
}
