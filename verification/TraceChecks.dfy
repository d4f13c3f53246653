/** What the five checks of the trace decoder notice, and what it refuses to decode. */
module TraceChecks {
  import opened Outcomes
  import opened Bytes
  import opened Trace

  lemma RecordOfParsed(b: seq<byte>)
    requires |b| == RECORD_SIZE
    ensures EncodeRecord(DecodeRecord(b)) == b
  {
    hide Le32, FromLe32;
    Le32OfParsed(b[..4]);
    Le16OfParsed(b[4..6]);
    Le32OfParsed(b[8..12]);
    Le32OfParsed(b[12..]);
    assert b == b[..4] + b[4..6] + [b[6], b[7]] + b[8..12] + b[12..];
  }

  lemma EncodedAppend(rs: seq<Record>, r: Record)
    ensures EncodeRecords(rs + [r]) == EncodeRecords(rs) + EncodeRecord(r)
  {
    hide EncodeRecord;
    assert (rs + [r])[..|rs|] == rs;
  }

  /** Every payload of whole records is the bytes of the records decoded from it. */
  lemma {:induction false} RecordsOfParsed(b: seq<byte>, n: nat)
    requires |b| == RECORD_SIZE * n
    ensures EncodeRecords(DecodeRecords(b, n)) == b
  {
    hide EncodeRecord, DecodeRecord;
    if n > 0 {
      var at := RECORD_SIZE * n - RECORD_SIZE;
      var front, last := b[..at], b[at..];
      var before, r := DecodeRecords(front, n - 1), DecodeRecord(last);
      assert b == front + last && b[at..RECORD_SIZE * n] == last;
      DecodesPrefix(front, last, n - 1);
      assert DecodeRecords(b, n) == before + [r];
      RecordsOfParsed(front, n - 1);
      RecordOfParsed(last);
      hide DecodeRecords;
      EncodedAppend(before, r);
    }
  }

  /** A header, bytes a longer header may have, whole records, and whatever follows. */
  function File(h: Header, extra: seq<byte>, payload: seq<byte>, tail: seq<byte>): seq<byte> {
    EncodeHeader(h) + extra + payload + tail
  }

  lemma FileParts(h: Header, extra: seq<byte>, payload: seq<byte>, tail: seq<byte>)
    ensures var data, at := File(h, extra, payload, tail), HEADER_SIZE + |extra|;
            && |data| == at + |payload| + |tail|
            && data[..HEADER_SIZE] == EncodeHeader(h) && data[at..at + |payload|] == payload
  {
    hide EncodeHeader;
    var b := EncodeHeader(h);
    assert (b + extra + payload + tail)[..|b|] == b;
    assert (b + extra + payload + tail)[|b| + |extra|..|b| + |extra| + |payload|] == payload;
  }

  /** Any file whose header tells its own length and the number of its records is decoded: the records are those whose bytes
      the payload is, and each check tells of its own field and of nothing else. */
  lemma FileIsDecoded(crc: Crc, h: Header, extra: seq<byte>, payload: seq<byte>, tail: seq<byte>, idx: Option<Index>)
    requires h.headerLen == HEADER_SIZE + |extra| && |payload| == RECORD_SIZE * h.eventCount
    ensures var r := Decoded(crc, File(h, extra, payload, tail), idx);
            && r.Value? && r.value.header == h && EncodeRecords(r.value.records) == payload
            && r.value.times == Unwrapped(Stamps(r.value.records))
            && (r.value.checks.magicOk <==> h.magic == TRACE_MAGIC)
            && (r.value.checks.schemaOk <==> h.schema == TRACE_SCHEMA)
            && (r.value.checks.sizeOk <==> tail == [])
            && (r.value.checks.crcOk <==> crc(payload) == h.crc32)
            && (idx.None? ==> r.value.checks.idxOk)
            && (idx.Some? ==> (r.value.checks.idxOk <==>
                  idx.value == Index(INDEX_MAGIC, 1, h.sequence, HEADER_SIZE + |extra| + |payload|, h.eventCount, h.crc32, "1")))
  {
    hide EncodeHeader, DecodeHeader, EncodeRecords, DecodeRecords, Unwrapped, File;
    FileParts(h, extra, payload, tail);
    HeaderRoundTrip(h);
    RecordsOfParsed(payload, h.eventCount);
  }

  /** A written file that was tampered with: whatever its magic, its schema, its payload and what was appended have become,
      each check is false exactly when what it stands for is no longer as it was written. */
  lemma ChecksNotice(crc: Crc, ordered: seq<Record>, sequence: u32, now: u32, magic: u32, schema: u16, payload: seq<byte>,
                     tail: seq<byte>, idx: Option<Index>)
    requires |ordered| <= RING_COUNT && |payload| == |EncodeRecords(ordered)|
    ensures var h := HeaderOf(crc, ordered, sequence, now);
            var r := Decoded(crc, File(h.(magic := magic, schema := schema), [], payload, tail), idx);
            && r.Value? && EncodeRecords(r.value.records) == payload
            && (r.value.checks.magicOk <==> magic == h.magic)
            && (r.value.checks.schemaOk <==> schema == h.schema)
            && (r.value.checks.sizeOk <==> tail == [])
            && (r.value.checks.crcOk <==> crc(payload) == crc(EncodeRecords(ordered)))
            && (r.value.checks.idxOk <==> idx in {None, Some(IndexOf(crc, ordered, sequence))})
  {
    hide EncodeRecords, Decoded, File;
    FileIsDecoded(crc, HeaderOf(crc, ordered, sequence, now).(magic := magic, schema := schema), [], payload, tail, idx);
  }

  /** The file as it is written is such a file. */
  lemma WrittenIsFile(crc: Crc, ordered: seq<Record>, sequence: u32, now: u32)
    requires |ordered| <= RING_COUNT
    ensures TraceFile(crc, ordered, sequence, now) == File(HeaderOf(crc, ordered, sequence, now), [], EncodeRecords(ordered), [])
  {
    hide EncodeHeader, EncodeRecords;
    var b, p := EncodeHeader(HeaderOf(crc, ordered, sequence, now)), EncodeRecords(ordered);
    assert b + [] + p + [] == b + p;
  }

  /** So an altered event is decoded as it was altered, and noticed unless its checksum happens to be the same. */
  lemma AlteredEventIsNoticed(crc: Crc, ordered: seq<Record>, sequence: u32, now: u32, i: nat, r: Record)
    requires i < |ordered| <= RING_COUNT
    ensures var decoded := Decoded(crc, File(HeaderOf(crc, ordered, sequence, now), [], EncodeRecords(ordered[i := r]), []), None);
            && decoded.Value? && decoded.value.records == ordered[i := r]
            && (decoded.value.checks.crcOk <==> crc(EncodeRecords(ordered[i := r])) == crc(EncodeRecords(ordered)))
  {
    hide EncodeRecords, Decoded, File, DecodeRecords;
    var h, altered := HeaderOf(crc, ordered, sequence, now), ordered[i := r];
    FileIsDecoded(crc, h, [], EncodeRecords(altered), [], None);
    RecordsRoundTrip(altered);
    RecordsRoundTrip(Decoded(crc, File(h, [], EncodeRecords(altered), []), None).value.records);
    DecodedCount(crc, File(h, [], EncodeRecords(altered), []), None);
  }

  lemma DecodedCount(crc: Crc, data: seq<byte>, idx: Option<Index>)
    requires Decoded(crc, data, idx).Value?
    ensures |Decoded(crc, data, idx).value.records| == Decoded(crc, data, idx).value.header.eventCount
  {
    hide DecodeHeader, DecodeRecords, Unwrapped;
  }

  /** A file cut short anywhere is not decoded at all. */
  lemma CutFileIsRefused(crc: Crc, ordered: seq<Record>, sequence: u32, now: u32, k: nat, idx: Option<Index>)
    requires |ordered| <= RING_COUNT && k < |TraceFile(crc, ordered, sequence, now)|
    ensures Decoded(crc, TraceFile(crc, ordered, sequence, now)[..k], idx) == Raised(if k < HEADER_SIZE then TooSmall else ReadPastEnd)
  {
    hide EncodeHeader, DecodeHeader, EncodeRecords, DecodeRecords, Unwrapped;
    var h := HeaderOf(crc, ordered, sequence, now);
    HeaderRoundTrip(h);
    if k >= HEADER_SIZE {
      SliceOfPrefix(TraceFile(crc, ordered, sequence, now), k, 0, HEADER_SIZE);
      assert TraceFile(crc, ordered, sequence, now)[..HEADER_SIZE] == EncodeHeader(h);
    }
  }

  /** A header that claims to be shorter than it is, is refused, whatever follows it. */
  lemma ShortHeaderIsRefused(crc: Crc, h: Header, rest: seq<byte>, idx: Option<Index>)
    requires h.headerLen < HEADER_SIZE
    ensures Decoded(crc, EncodeHeader(h) + rest, idx) == Raised(BadHeaderLength)
  {
    hide EncodeHeader, DecodeHeader, DecodeRecords, Unwrapped;
    HeaderRoundTrip(h);
    assert (EncodeHeader(h) + rest)[..HEADER_SIZE] == EncodeHeader(h);
  }
}
