/** What the packager refuses to build, what else its header holds, and what the card builder refuses to read. */
module PackageChecks {
  import opened Outcomes
  import opened Bytes
  import opened Package

  // ----- building -----

  predicate FitsField(text: string) { IsAscii(text) && |text| < TEXT_SIZE }

  function TextFault(text: string): Fault { if !IsAscii(text) then NotAscii else TextTooLong }

  /** A package is built exactly when all three texts are ASCII and leave room for a final zero; otherwise the first that does not,
      of product, hardware and build, is the one complained of. */
  lemma BuildsIffTextsFit(crc: Crc, sha: Sha, imageA: seq<byte>, imageB: seq<byte>, p: Params)
    ensures var r := BuiltPackage(crc, sha, imageA, imageB, p);
            && (r.Value? <==> FitsField(p.productId) && FitsField(p.hardwareId) && FitsField(p.buildId))
            && (r.Raised? ==> r.error == TextFault(if !FitsField(p.productId) then p.productId
                                                   else if !FitsField(p.hardwareId) then p.hardwareId else p.buildId))
  {
    hide Ascii, HeaderBlocks, WriteAll, Payload, IsAscii;
    FieldIffFits(p.productId);
    FieldIffFits(p.hardwareId);
    FieldIffFits(p.buildId);
    hide TextField;
  }

  lemma FieldIffFits(text: string)
    ensures TextField(text).Value? <==> FitsField(text)
    ensures TextField(text).Raised? ==> TextField(text).error == TextFault(text)
  {
  }

  /** The text stands at the start of its field, and zeros fill the rest. */
  lemma FieldHoldsText(text: string)
    requires FitsField(text)
    ensures TextField(text).Value?
    ensures forall i :: 0 <= i < TEXT_SIZE ==> TextField(text).value[i] == if i < |text| then text[i] as int else 0
  {
  }

  lemma {:induction false} UntouchedByBlocks(h: Header, blocks: seq<HeaderBlock>, k: nat)
    requires k < HEADER_SIZE
    requires forall i :: 0 <= i < |blocks| ==> k < blocks[i].offset || blocks[i].offset + |blocks[i].bytes| <= k
    ensures WriteAll(h, blocks)[k] == h[k]
  {
    if blocks != [] {
      var n := |blocks| - 1;
      UntouchedByBlocks(h, blocks[..n], k);
      SpliceAt(WriteAll(h, blocks[..n]), blocks[n].offset, blocks[n].bytes);
    }
  }

  /** The parts of the header that nothing is written to. */
  predicate Unused(k: nat) { 24 <= k < 32 || 176 <= k < 192 || 216 <= k < 224 || 248 <= k < HEADER_SIZE }

  /** Every byte of the header that no field takes up reads 0xFF, and the reserved word is zero. */
  lemma RestOfHeader(crc: Crc, sha: Sha, imageA: seq<byte>, imageB: seq<byte>, p: Params, k: nat)
    requires BuiltPackage(crc, sha, imageA, imageB, p).Value?
    ensures var data := BuiltPackage(crc, sha, imageA, imageB, p).value;
            && |data| >= HEADER_SIZE && (Unused(k) ==> data[k] == 255) && ReadU32(data[..HEADER_SIZE], 16) == 0
  {
    hide TextField, Words, PackVersion, Payload, Splice, AlignUp, ReadBlock, Reduced, ReadU32;
    var data := BuiltPackage(crc, sha, imageA, imageB, p).value;
    var blocks := HeaderBlocks(crc, sha, imageA, imageB, p, TextField(p.productId).value, TextField(p.hardwareId).value,
                               TextField(p.buildId).value);
    var h := WriteAll(BLANK_HEADER, blocks);
    FirstPart(h, Payload(imageA, imageB));
    if Unused(k) {
      UntouchedByBlocks(BLANK_HEADER, blocks, k);
      assert data[k] == h[k];
    }
    BuiltHeader(crc, sha, imageA, imageB, p);
    ReservedWord(h, crc, sha, imageA, imageB, p);
  }

  lemma ReservedWord(h: Header, crc: Crc, sha: Sha, imageA: seq<byte>, imageB: seq<byte>, p: Params)
    requires HeaderOf(h, crc, sha, imageA, imageB, p)
    ensures ReadU32(h, 16) == 0
  {
    hide TextField, Words, PackVersion, Payload, AlignUp, ReadU32;
    var blocks := HeaderBlocks(crc, sha, imageA, imageB, p, TextField(p.productId).value, TextField(p.hardwareId).value,
                               TextField(p.buildId).value);
    assert ReadBlock(h, blocks[0]) == blocks[0].bytes;
    WordInBlock(h, 0, [PACKAGE_MAGIC, PACKAGE_VERSION, HEADER_SIZE, PackageSize(imageA, imageB), 0, 2], 4);
  }

  // ----- reading -----

  /** How many entries of 32 bytes find room in the header after its first 192 bytes, the last needing 24. */
  const MAX_ENTRIES := 10

  lemma {:induction false} EntriesFit(h: Header, n: nat)
    ensures ReadEntries(h, n).Value? <==> n <= MAX_ENTRIES
    ensures ReadEntries(h, n).Raised? ==> ReadEntries(h, n).error == ReadPastEnd
    ensures ReadEntries(h, n).Value? ==> |ReadEntries(h, n).value| == n
                                         && forall i :: 0 <= i < n ==> ReadEntries(h, n).value[i] == ReadEntry(h, 192 + 32 * i)
  {
    hide ReadEntry;
    if n > 0 { EntriesFit(h, n - 1); }
  }

  /** The card builder reads a file exactly when it is no shorter than a header, begins with the magic word, is as long as its header
      says, and lists no more images than the header has room for; the first of these that fails is the one complained of. */
  lemma ReadsIff(crc: Crc, sha: Sha, data: seq<byte>)
    ensures var r := ParsedPackage(crc, sha, data);
            && (r.Value? <==>
                  && |data| >= HEADER_SIZE && ReadU32(data[..HEADER_SIZE], 0) == PACKAGE_MAGIC
                  && ReadU32(data[..HEADER_SIZE], 12) == |data| && ReadU32(data[..HEADER_SIZE], 20) <= MAX_ENTRIES)
            && (r.Raised? ==> r.error == if |data| < HEADER_SIZE then TooSmall
                                         else if ReadU32(data[..HEADER_SIZE], 0) != PACKAGE_MAGIC then BadMagic
                                         else if ReadU32(data[..HEADER_SIZE], 12) != |data| then SizeMismatch else ReadPastEnd)
            && (r.Value? ==> |r.value.images| == r.value.imageCount
                             && forall i :: 0 <= i < |r.value.images| ==>
                                  r.value.images[i] == ReadEntry(data[..HEADER_SIZE], 192 + 32 * i))
  {
    hide ReadEntry, ReadText, ReadU32, ReadEntries;
    if |data| >= HEADER_SIZE { EntriesFit(data[..HEADER_SIZE], ReadU32(data[..HEADER_SIZE], 20)); }
  }

  /** A package cut short or with anything appended is never read. */
  lemma CutOrLongerIsRefused(crc: Crc, sha: Sha, imageA: seq<byte>, imageB: seq<byte>, p: Params, k: nat, tail: seq<byte>)
    requires BuiltPackage(crc, sha, imageA, imageB, p).Value? && PackageSize(imageA, imageB) < WORD_LIMIT
    ensures var data := BuiltPackage(crc, sha, imageA, imageB, p).value;
            && (tail != [] ==> ParsedPackage(crc, sha, data + tail) == Raised(SizeMismatch))
            && (k < |data| ==> ParsedPackage(crc, sha, data[..k]) == Raised(if k < HEADER_SIZE then TooSmall else SizeMismatch))
  {
    hide BuiltPackage, HeaderOf, Payload, OffsetB, ReadU32, ReadEntries, ReadText;
    var data := BuiltPackage(crc, sha, imageA, imageB, p).value;
    BuiltHeader(crc, sha, imageA, imageB, p);
    PayloadParts(imageA, imageB);
    HeaderWords(data[..HEADER_SIZE], crc, sha, imageA, imageB, p);
    assert (data + tail)[..HEADER_SIZE] == data[..HEADER_SIZE];
    if HEADER_SIZE <= k < |data| { SliceOfPrefix(data, k, 0, HEADER_SIZE); }
  }

  /** Nor is one whose magic word was changed. */
  lemma OtherMagicIsRefused(crc: Crc, sha: Sha, data: seq<byte>, magic: u32)
    requires |data| >= HEADER_SIZE && magic != PACKAGE_MAGIC
    ensures ParsedPackage(crc, sha, Splice(data, 0, Le32(magic))) == Raised(BadMagic)
  {
    hide Le32, FromLe32, ReadEntries, ReadText;
    Le32RoundTrip(magic);
    SpliceThere(data, 0, Le32(magic));
    SliceOfPrefix(Splice(data, 0, Le32(magic)), HEADER_SIZE, 0, 4);
  }
}
