/** The trace ring, the file written from it, and the decoder that reads the file back. */
module Trace {
  import opened Outcomes
  import opened Bytes

  const RING_COUNT := 64
  const TRACE_MAGIC: u32 := 0x43525452
  const TRACE_SCHEMA: u16 := 1
  const TRACE_TICK_HZ: u32 := 1000
  const HEADER_SIZE := 36
  const RECORD_SIZE := 16

  datatype Record = Record(timestampMs: u32, eventId: u16, domain: byte, severity: byte, arg0: u32, arg1: u32)

  datatype Header = Header(
    magic: u32, schema: u16, headerLen: u16, sequence: u32, eventCount: u32, startMs: u32, endMs: u32,
    tickHz: u32, flags: u32, crc32: u32)

  type Crc = seq<byte> -> u32

  // ----- bytes -----

  function EncodeRecord(r: Record): (b: seq<byte>)
    ensures |b| == RECORD_SIZE
  {
    Le32(r.timestampMs) + Le16(r.eventId) + [r.domain, r.severity] + Le32(r.arg0) + Le32(r.arg1)
  }

  function DecodeRecord(b: seq<byte>): Record
    requires |b| == RECORD_SIZE
  {
    Record(FromLe32(b[..4]), FromLe16(b[4..6]), b[6], b[7], FromLe32(b[8..12]), FromLe32(b[12..]))
  }

  lemma RecordRoundTrip(r: Record)
    ensures DecodeRecord(EncodeRecord(r)) == r
  {
    hide Le32, FromLe32;
    var b := EncodeRecord(r);
    Le32RoundTrip(r.timestampMs);
    Le32RoundTrip(r.arg0);
    Le32RoundTrip(r.arg1);
    assert b[..4] == Le32(r.timestampMs) && b[4..6] == Le16(r.eventId) && b[6] == r.domain && b[7] == r.severity;
    assert b[8..12] == Le32(r.arg0) && b[12..] == Le32(r.arg1);
  }

  function EncodeHeader(h: Header): (b: seq<byte>)
    ensures |b| == HEADER_SIZE
  {
    Le32(h.magic) + Le16(h.schema) + Le16(h.headerLen)
    + Words([h.sequence, h.eventCount, h.startMs, h.endMs, h.tickHz, h.flags, h.crc32])
  }

  function DecodeHeader(b: seq<byte>): Header
    requires |b| == HEADER_SIZE
  {
    var w := ParseWords(b[8..], 7);
    Header(FromLe32(b[..4]), FromLe16(b[4..6]), FromLe16(b[6..8]), w[0], w[1], w[2], w[3], w[4], w[5], w[6])
  }

  lemma HeaderRoundTrip(h: Header)
    ensures DecodeHeader(EncodeHeader(h)) == h
  {
    hide Le32, FromLe32, Words, ParseWords;
    var b, w := EncodeHeader(h), [h.sequence, h.eventCount, h.startMs, h.endMs, h.tickHz, h.flags, h.crc32];
    Le32RoundTrip(h.magic);
    WordsRoundTrip(w);
    assert b[..4] == Le32(h.magic) && b[4..6] == Le16(h.schema) && b[6..8] == Le16(h.headerLen) && b[8..] == Words(w);
  }

  function EncodeRecords(rs: seq<Record>): (b: seq<byte>)
    ensures |b| == RECORD_SIZE * |rs|
  {
    if rs == [] then [] else EncodeRecords(rs[..|rs| - 1]) + EncodeRecord(rs[|rs| - 1])
  }

  function DecodeRecords(b: seq<byte>, n: nat): (rs: seq<Record>)
    requires RECORD_SIZE * n <= |b|
    ensures |rs| == n
  {
    if n == 0 then [] else DecodeRecords(b, n - 1) + [DecodeRecord(b[RECORD_SIZE * n - RECORD_SIZE..RECORD_SIZE * n])]
  }

  lemma {:induction false} DecodesPrefix(a: seq<byte>, b: seq<byte>, n: nat)
    requires RECORD_SIZE * n <= |a|
    ensures DecodeRecords(a + b, n) == DecodeRecords(a, n)
  {
    hide DecodeRecord;
    if n > 0 {
      DecodesPrefix(a, b, n - 1);
      assert (a + b)[RECORD_SIZE * n - RECORD_SIZE..RECORD_SIZE * n] == a[RECORD_SIZE * n - RECORD_SIZE..RECORD_SIZE * n];
    }
  }

  lemma {:induction false} RecordsRoundTrip(rs: seq<Record>)
    ensures DecodeRecords(EncodeRecords(rs), |rs|) == rs
  {
    hide DecodeRecord, EncodeRecord;
    if rs != [] {
      var n := |rs|;
      var front, last := EncodeRecords(rs[..n - 1]), EncodeRecord(rs[n - 1]);
      RecordsRoundTrip(rs[..n - 1]);
      DecodesPrefix(front, last, n - 1);
      RecordRoundTrip(rs[n - 1]);
      SecondPart(front, last, RECORD_SIZE * n - RECORD_SIZE, RECORD_SIZE * n);
      assert rs == rs[..n - 1] + [rs[n - 1]];
    }
  }

  lemma SecondPart(a: seq<byte>, b: seq<byte>, lo: nat, hi: nat)
    requires lo == |a| && hi == |a| + |b|
    ensures (a + b)[lo..hi] == b
  {
  }

  // ----- unwrapping times -----

  /** Each time that is less than the one before starts a new epoch. */
  function Unwrapped(stamps: seq<u32>): (times: seq<nat>)
    ensures |times| == |stamps|
  {
    if |stamps| <= 1 then seq(|stamps|, i requires 0 <= i < |stamps| => stamps[i])
    else
      var n := |stamps| - 1;
      var before := Unwrapped(stamps[..n]);
      before + [before[n - 1] - stamps[n - 1] + stamps[n] + if stamps[n] < stamps[n - 1] then WORD_LIMIT else 0]
  }

  method ExtendedTimestamps(stamps: seq<u32>) returns (times: seq<nat>)
    ensures times == Unwrapped(stamps)
  {
    var epoch: nat, previous: Option<u32> := 0, None;
    times := [];
    var i := 0;
    while i < |stamps|
      invariant 0 <= i <= |stamps| && times == Unwrapped(stamps[..i])
      invariant i == 0 ==> previous == None && epoch == 0
      invariant i > 0 ==> previous == Some(stamps[i - 1]) && times[i - 1] == epoch + stamps[i - 1]
    {
      var current := stamps[i];
      if previous.Some? && current < previous.value {
        epoch := epoch + WORD_LIMIT;
      }
      assert stamps[..i + 1][..i] == stamps[..i];
      times := times + [epoch + current];
      previous := Some(current);
      i := i + 1;
    }
    assert stamps[..i] == stamps;
  }

  // ----- the file -----

  /** The header written for the events in `ordered`, with `now` standing in when there is none. */
  function HeaderOf(crc: Crc, ordered: seq<Record>, sequence: u32, now: u32): Header
    requires |ordered| <= RING_COUNT
  {
    var start := if ordered == [] then now else ordered[0].timestampMs;
    var end := if ordered == [] then start else ordered[|ordered| - 1].timestampMs;
    Header(TRACE_MAGIC, TRACE_SCHEMA, HEADER_SIZE, sequence, |ordered|, start, end, TRACE_TICK_HZ, 0, crc(EncodeRecords(ordered)))
  }

  function TraceFile(crc: Crc, ordered: seq<Record>, sequence: u32, now: u32): seq<byte>
    requires |ordered| <= RING_COUNT
  {
    EncodeHeader(HeaderOf(crc, ordered, sequence, now)) + EncodeRecords(ordered)
  }

  /** The values of an index file, written next to a trace file. */
  datatype Index = Index(magic: string, schema: int, sequence: int, size: int, eventCount: int, crc32: int, complete: string)

  const INDEX_MAGIC := "RP2350_TRIG_TRACE_IDX"

  /** The index written for a trace file. */
  function IndexOf(crc: Crc, ordered: seq<Record>, sequence: u32): Index {
    var payload := EncodeRecords(ordered);
    Index(INDEX_MAGIC, 1, sequence, HEADER_SIZE + |payload|, |ordered|, crc(payload), "1")
  }

  predicate IndexAgrees(idx: Index, h: Header, size: int) {
    && idx.magic == INDEX_MAGIC && idx.schema == 1 && idx.sequence == h.sequence && idx.size == size
    && idx.eventCount == h.eventCount && idx.crc32 == h.crc32 && idx.complete == "1"
  }

  datatype Checks = Checks(magicOk: bool, schemaOk: bool, sizeOk: bool, crcOk: bool, idxOk: bool)

  datatype Report = Report(header: Header, records: seq<Record>, times: seq<nat>, checks: Checks)

  function Stamps(records: seq<Record>): seq<u32> {
    seq(|records|, i requires 0 <= i < |records| => records[i].timestampMs)
  }

  /** The decoder's result, with the index file's values if there is one. */
  function Decoded(crc: Crc, data: seq<byte>, idx: Option<Index>): Outcome<Report> {
    if |data| < HEADER_SIZE then Raised(TooSmall)
    else
      var h := DecodeHeader(data[..HEADER_SIZE]);
      var expected := h.headerLen + h.eventCount * RECORD_SIZE;
      if h.headerLen < HEADER_SIZE then Raised(BadHeaderLength)
      else if |data| < expected then Raised(ReadPastEnd)
      else
        var payload := data[h.headerLen..expected];
        var records := DecodeRecords(payload, h.eventCount);
        Value(Report(h, records, Unwrapped(Stamps(records)),
                     Checks(h.magic == TRACE_MAGIC, h.schema == TRACE_SCHEMA, |data| == expected, crc(payload) == h.crc32,
                            idx.Some? ==> IndexAgrees(idx.value, h, expected))))
  }

  method DecodeTrace(crc: Crc, data: seq<byte>, idx: Option<Index>) returns (r: Outcome<Report>)
    ensures r == Decoded(crc, data, idx)
  {
    hide DecodeHeader, DecodeRecord, Unwrapped;
    if |data| < HEADER_SIZE {
      return Raised(TooSmall);
    }
    var header := DecodeHeader(data[..HEADER_SIZE]);
    var expectedSize := header.headerLen + header.eventCount * RECORD_SIZE;
    if header.headerLen < HEADER_SIZE {
      return Raised(BadHeaderLength);
    }
    if |data| < expectedSize {
      return Raised(ReadPastEnd);
    }
    var payload := data[header.headerLen..expectedSize];
    var records: seq<Record> := [];
    for index := 0 to header.eventCount
      invariant records == DecodeRecords(payload, index)
    {
      var offset := index * RECORD_SIZE;
      assert offset + RECORD_SIZE == RECORD_SIZE * (index + 1) <= |payload|;
      records := records + [DecodeRecord(payload[offset..offset + RECORD_SIZE])];
    }
    var times := ExtendedTimestamps(Stamps(records));
    r := Value(Report(header, records, times,
                      Checks(header.magic == TRACE_MAGIC, header.schema == TRACE_SCHEMA, |data| == expectedSize,
                             crc(payload) == header.crc32, idx.Some? ==> IndexAgrees(idx.value, header, expectedSize))));
  }

  /** Decoding a written file, alone or with the index written for it, yields its events in order with every check true. */
  lemma FileRoundTrip(crc: Crc, ordered: seq<Record>, sequence: u32, now: u32, idx: Option<Index>)
    requires |ordered| <= RING_COUNT && idx in {None, Some(IndexOf(crc, ordered, sequence))}
    ensures var r := Decoded(crc, TraceFile(crc, ordered, sequence, now), idx);
            && r.Value? && r.value.records == ordered && r.value.checks == Checks(true, true, true, true, true)
            && r.value.times == Unwrapped(Stamps(ordered))
            && r.value.header.sequence == sequence && r.value.header.eventCount == |ordered|
            && (ordered != [] ==> r.value.header.startMs == ordered[0].timestampMs
                                  && r.value.header.endMs == ordered[|ordered| - 1].timestampMs)
            && (ordered == [] ==> r.value.header.startMs == now == r.value.header.endMs)
  {
    hide EncodeHeader, DecodeHeader, EncodeRecord, DecodeRecord, EncodeRecords, DecodeRecords, Unwrapped;
    var data := TraceFile(crc, ordered, sequence, now);
    var h := HeaderOf(crc, ordered, sequence, now);
    HeaderRoundTrip(h);
    RecordsRoundTrip(ordered);
    assert data[..HEADER_SIZE] == EncodeHeader(h);
    assert data[HEADER_SIZE..HEADER_SIZE + |ordered| * RECORD_SIZE] == EncodeRecords(ordered);
  }

  // ----- the ring -----

  /** The most recent events of a history: all of them, or the last 64. */
  function Recent(history: seq<Record>): seq<Record> {
    if |history| <= RING_COUNT then history else history[|history| - RING_COUNT..]
  }

  /** An index taken round the ring. */
  function Around(n: nat): (i: nat)
    ensures i < RING_COUNT
    ensures n < 2 * RING_COUNT ==> i == if n < RING_COUNT then n else n - RING_COUNT
  {
    n % RING_COUNT
  }

  function First(next: nat, count: nat): nat { if count == RING_COUNT then next else 0 }

  /** The ring's slots hold the most recent events, oldest first from `First` on. */
  ghost predicate Holds(slots: seq<Record>, next: nat, count: nat, history: seq<Record>) {
    && |slots| == RING_COUNT && next < RING_COUNT && count <= RING_COUNT
    && count == |Recent(history)| && (count < RING_COUNT ==> next == count)
    && forall i :: 0 <= i < count ==> slots[Around(First(next, count) + i)] == Recent(history)[i]
  }

  /** Overwriting the slot that is next makes the ring hold one more event, at the cost of the oldest when it is full. */
  lemma NextEvent(slots: seq<Record>, next: nat, count: nat, history: seq<Record>, r: Record)
    requires Holds(slots, next, count, history)
    ensures Holds(slots[next := r], Around(next + 1), if count < RING_COUNT then count + 1 else count, history + [r])
  {
    hide Around;
    var after, more, n := slots[next := r], history + [r], Around(next + 1);
    if count < RING_COUNT {
      assert Recent(history) == history;
      forall i | 0 <= i <= count ensures after[Around(First(n, count + 1) + i)] == Recent(more)[i] {
        NotFull(slots, next, count, history, r, i);
      }
    } else {
      forall i | 0 <= i < RING_COUNT ensures after[Around(n + i)] == Recent(more)[i] {
        Full(slots, next, history, r, i);
      }
    }
  }

  lemma NotFull(slots: seq<Record>, next: nat, count: nat, history: seq<Record>, r: Record, i: nat)
    requires Holds(slots, next, count, history) && i <= count < RING_COUNT
    ensures slots[next := r][Around(First(Around(next + 1), count + 1) + i)] == (history + [r])[i]
    ensures Recent(history + [r]) == history + [r]
  {
    hide Around;
    if i < count {
      assert slots[Around(First(next, count) + i)] == Recent(history)[i];
    }
  }

  lemma Full(slots: seq<Record>, next: nat, history: seq<Record>, r: Record, i: nat)
    requires Holds(slots, next, RING_COUNT, history) && i < RING_COUNT
    ensures |Recent(history + [r])| == RING_COUNT
    ensures slots[next := r][Around(Around(next + 1) + i)] == Recent(history + [r])[i]
  {
    hide Around, Recent;
    RecentWhenFull(history, r, i);
    if i < RING_COUNT - 1 {
      assert slots[Around(First(next, RING_COUNT) + (i + 1))] == Recent(history)[i + 1];
    }
  }

  lemma RecentWhenFull(history: seq<Record>, r: Record, i: nat)
    requires |Recent(history)| == RING_COUNT && i < RING_COUNT
    ensures |Recent(history + [r])| == RING_COUNT
    ensures Recent(history + [r])[i] == if i < RING_COUNT - 1 then Recent(history)[i + 1] else r
  {
  }

  class Ring {
    const slots: array<Record>
    var next: nat
    var count: nat
    /** Every event traced so far. */
    ghost var history: seq<Record>

    ghost predicate Valid()
      reads this, slots
    {
      Holds(slots[..], next, count, history)
    }

    constructor ()
      ensures Valid() && history == [] && fresh(slots)
    {
      slots := new Record[RING_COUNT](_ => Record(0, 0, 0, 0, 0, 0));
      next, count, history := 0, 0, [];
    }

    /** The oldest event gives way once the ring is full. */
    method TraceEvent(now: u32, domain: byte, eventId: u16, severity: byte, arg0: u32, arg1: u32)
      requires Valid()
      modifies this, slots
      ensures Valid() && history == old(history) + [Record(now, eventId, domain, severity, arg0, arg1)]
    {
      var record := Record(now, eventId, domain, severity, arg0, arg1);
      NextEvent(slots[..], next, count, history, record);
      ghost var was := slots[..];
      slots[next] := record;
      assert slots[..] == was[next := record];
      history := history + [record];
      next := (next + 1) % RING_COUNT;
      if count < RING_COUNT {
        count := count + 1;
      }
    }

    /** The events in the ring, oldest first, as they go into a file. */
    method WritePayload(crc: Crc, sequence: u32, now: u32) returns (payload: seq<byte>)
      requires Valid()
      ensures payload == TraceFile(crc, Recent(history), sequence, now)
    {
      hide TraceFile, Recent;
      var first := if count == RING_COUNT then next else 0;
      var ordered: seq<Record> := [];
      for i := 0 to count
        invariant ordered == Recent(history)[..i]
      {
        assert slots[..][Around(First(next, count) + i)] == Recent(history)[i];
        ordered := ordered + [slots[(first + i) % RING_COUNT]];
      }
      assert ordered == Recent(history);
      payload := TraceFile(crc, ordered, sequence, now);
    }
  }

  // ----- what unwrapping recovers -----

  /** A rising sequence of true times, as the 32-bit clock shows them. */
  function Shown(times: seq<nat>): seq<u32> {
    seq(|times|, i requires 0 <= i < |times| => times[i] % WORD_LIMIT)
  }

  predicate Rising(times: seq<nat>) { forall i :: 0 < i < |times| ==> times[i - 1] <= times[i] }

  /** No two neighbouring events are 2^32 ms or more apart. */
  predicate Close(times: seq<nat>) { forall i :: 0 < i < |times| ==> times[i] - times[i - 1] < WORD_LIMIT }

  /** The unwrapped times differ from the true ones by what the first event's epoch was. */
  ghost predicate Faithful(times: seq<nat>) {
    forall i :: 0 <= i < |times| ==> times[i] + times[0] % WORD_LIMIT == Unwrapped(Shown(times))[i] + times[0]
  }

  /** The constant is a multiple of 2^32. */
  lemma EpochIsMultiple(t: nat)
    ensures (t - t % WORD_LIMIT) % WORD_LIMIT == 0
  {
  }

  lemma UnwrappedStep(times: seq<nat>)
    requires |times| >= 2
    ensures var n := |times| - 1;
            var u, before := Unwrapped(Shown(times)), Unwrapped(Shown(times[..n]));
            && u[..n] == before
            && u[n] - u[n - 1] == (times[n] % WORD_LIMIT - times[n - 1] % WORD_LIMIT)
                                  + (if times[n] % WORD_LIMIT < times[n - 1] % WORD_LIMIT then WORD_LIMIT else 0)
  {
    var n := |times| - 1;
    assert Shown(times)[..n] == Shown(times[..n]);
  }

  lemma ShownGap(a: nat, b: nat)
    requires a <= b
    ensures (b % WORD_LIMIT - a % WORD_LIMIT) + (if b % WORD_LIMIT < a % WORD_LIMIT then WORD_LIMIT else 0) == b - a
       <==> b - a < WORD_LIMIT
  {
  }

  /** For times that never decrease, unwrapping recovers them up to that constant exactly when no gap reaches 2^32 ms. */
  lemma {:induction false} UnwrapsIffClose(times: seq<nat>)
    requires Rising(times)
    ensures Faithful(times) <==> Close(times)
  {
    hide Unwrapped, Shown;
    if |times| <= 1 {
      SingleTime(times);
    } else {
      var n := |times| - 1;
      var front := times[..n];
      UnwrapsIffClose(front);
      UnwrappedStep(times);
      ShownGap(times[n - 1], times[n]);
      FaithfulSplits(times);
      CloseSplits(times);
    }
  }

  lemma SingleTime(times: seq<nat>)
    requires |times| <= 1
    ensures Faithful(times) && Close(times)
  {
  }

  lemma CloseSplits(times: seq<nat>)
    requires |times| >= 2
    ensures var n := |times| - 1; Close(times) <==> Close(times[..n]) && times[n] - times[n - 1] < WORD_LIMIT
  {
    var n := |times| - 1;
    if Close(times[..n]) && times[n] - times[n - 1] < WORD_LIMIT {
      forall i | 0 < i < |times| ensures times[i] - times[i - 1] < WORD_LIMIT {
        if i < n { assert times[..n][i] - times[..n][i - 1] < WORD_LIMIT; }
      }
    }
    if Close(times) {
      forall i | 0 < i < n ensures times[..n][i] - times[..n][i - 1] < WORD_LIMIT {
        assert times[i] - times[i - 1] < WORD_LIMIT;
      }
    }
  }

  lemma FaithfulSplits(times: seq<nat>)
    requires |times| >= 2
    ensures var n, u := |times| - 1, Unwrapped(Shown(times));
            Faithful(times) <==> Faithful(times[..n]) && u[n] + times[n - 1] == times[n] + u[n - 1]
  {
    UnwrappedStep(times);
    hide Unwrapped, Shown;
    var n, u := |times| - 1, Unwrapped(Shown(times));
    var v := Unwrapped(Shown(times[..n]));
    assert forall i :: 0 <= i < n ==> v[i] == u[i] && times[..n][i] == times[i];
  }
}
