/** The unified OTA package: a 512-byte header and two images, as the packager writes and the card builder reads it. */
module Package {
  import opened Outcomes
  import opened Bytes
  import opened Bits

  const PACKAGE_MAGIC: u32 := 0x474B5054
  const PACKAGE_VERSION: u32 := 2
  const HEADER_SIZE := 512
  const PAYLOAD_ALIGNMENT := 512
  const TEXT_SIZE := 32
  const SLOT_A_RUN_OFFSET := 0x40000
  const SLOT_B_RUN_OFFSET := 0x1C0000

  type Digest = b: seq<byte> | |b| == 32 ghost witness Fill(0, 32)
  type Crc = seq<byte> -> u32
  type Sha = seq<byte> -> Digest

  type Header = h: seq<byte> | |h| == HEADER_SIZE ghost witness Fill(255, HEADER_SIZE)

  // ----- versions and alignment -----

  datatype Version = Version(major: int, minor: int, patch: int)

  function PackVersion(v: Version): int { Or(Or(Shl(v.major, 16), Shl(v.minor, 8)), v.patch) }

  function AlignUp(value: int, alignment: int): int { And(value + alignment - 1, Not(alignment - 1)) }

  predicate IsSemver(v: Version) { 0 <= v.major <= 255 && 0 <= v.minor <= 255 && 0 <= v.patch <= 255 }

  lemma SmallPowers()
    ensures Pow2(8) == 256 && Pow2(16) == 65536 && Pow2(9) == 512 && Mask(9) == 511
  {
    assert Pow2(1) == 2 && Pow2(2) == 4 && Pow2(3) == 8 && Pow2(4) == 16 && Pow2(5) == 32 && Pow2(6) == 64 && Pow2(7) == 128;
    assert Pow2(8) == 256 && Pow2(9) == 512;
    assert Pow2(10) == 1024 && Pow2(11) == 2048 && Pow2(12) == 4096 && Pow2(13) == 8192 && Pow2(14) == 16384 && Pow2(15) == 32768;
  }

  /** Shifted left by s, a number shares no bit with one below 2^s. */
  lemma ShiftedApart(high: int, low: int, s: nat)
    requires 0 <= low < Pow2(s)
    ensures Or(Shl(high, s), low) == Shl(high, s) + low
  {
    BitsOfShl(high, s);
    HighBitsClear(low, s);
    DisjointSum(Shl(high, s), low, s);
  }

  lemma {:induction false} ShlIsProduct(a: int, s: nat)
    ensures Shl(a, s) == a * Pow2(s)
  {
    if s > 0 {
      ShlIsProduct(a, s - 1);
      DoubleProduct(a, Pow2(s - 1));
    }
  }

  lemma PackedValue(v: Version)
    requires IsSemver(v)
    ensures PackVersion(v) == v.major * 65536 + v.minor * 256 + v.patch
  {
    hide Or, Shl, Pow2;
    SmallPowers();
    ShlIsProduct(v.major, 16);
    ShlIsProduct(v.minor, 8);
    ShiftedApart(v.major, Shl(v.minor, 8), 16);
    ShlIsProduct(v.major * 256 + v.minor, 8);
    ShiftedApart(v.major * 256 + v.minor, v.patch, 8);
  }

  predicate Before(a: Version, b: Version) {
    a.major < b.major || (a.major == b.major && (a.minor < b.minor || (a.minor == b.minor && a.patch < b.patch)))
  }

  /** Packing keeps the order of versions and tells any two apart, and the result fits a header word. */
  lemma PackingKeepsOrder(a: Version, b: Version)
    requires IsSemver(a) && IsSemver(b)
    ensures PackVersion(a) < PackVersion(b) <==> Before(a, b)
    ensures PackVersion(a) == PackVersion(b) <==> a == b
    ensures 0 <= PackVersion(a) < WORD_LIMIT
  {
    hide PackVersion;
    PackedValue(a);
    PackedValue(b);
  }

  /** Aligning goes up to the least multiple of 512 that is not below the value. */
  lemma AlignUpIsLeast(value: nat, other: int)
    ensures var up := AlignUp(value, PAYLOAD_ALIGNMENT);
            && value <= up < value + PAYLOAD_ALIGNMENT && up % PAYLOAD_ALIGNMENT == 0
            && (other % PAYLOAD_ALIGNMENT == 0 && value <= other ==> up <= other)
  {
    hide And, Shr, Pow2, Mask;
    var v := value + PAYLOAD_ALIGNMENT - 1;
    SmallPowers();
    AndNotMask(v, 9);
    ShrSplits(v, 9);
    LowBitsFit(v, 9);
    assert AlignUp(value, PAYLOAD_ALIGNMENT) == Shr(v, 9) * 512;
    LeastMultiple(value, Shr(v, 9), other);
  }

  lemma LeastMultiple(value: nat, n: int, other: int)
    requires value <= n * 512 < value + 512
    ensures (n * 512) % 512 == 0
    ensures other % 512 == 0 && value <= other ==> n * 512 <= other
  {
  }

  // ----- the header -----

  function PutU32(h: Header, offset: nat, value: int): Header
    requires offset + 4 <= HEADER_SIZE
  {
    Splice(h, offset, Le32(value % WORD_LIMIT))
  }

  predicate IsAscii(text: string) { forall i :: 0 <= i < |text| ==> text[i] as int < 128 }

  /** An ASCII text, padded with zeros to its field. */
  function TextField(text: string): (r: Outcome<seq<byte>>)
    ensures r.Value? ==> |r.value| == TEXT_SIZE
  {
    if !IsAscii(text) then Raised(NotAscii)
    else if |text| >= TEXT_SIZE then Raised(TextTooLong)
    else Value(Ascii(text) + Fill(0, TEXT_SIZE - |text|))
  }

  function Ascii(text: string): seq<byte>
    requires IsAscii(text)
  {
    seq(|text|, i requires 0 <= i < |text| => Code(text[i]))
  }

  function Code(c: char): byte
    requires c as int < 128
  {
    c as int
  }

  function Reduced(values: seq<int>): (words: seq<u32>)
    ensures |words| == |values|
  {
    seq(|values|, i requires 0 <= i < |values| => values[i] % WORD_LIMIT)
  }

  /** Words written one after the other are one block of words. */
  lemma WordsJoin(h: Header, offset: nat, values: seq<int>, value: int)
    requires offset + 4 * |values| + 4 <= HEADER_SIZE
    ensures PutU32(Splice(h, offset, Words(Reduced(values))), offset + 4 * |values|, value)
         == Splice(h, offset, Words(Reduced(values + [value])))
  {
    hide Words, Le32;
    var w, x := Reduced(values), value % WORD_LIMIT;
    assert Reduced(values + [value]) == w + [x];
    WordsAppend(w, x);
    TwoSplices(h, offset, Words(w), Le32(x));
  }

  lemma {:induction false} WordsAppend(ws: seq<u32>, w: u32)
    ensures Words(ws + [w]) == Words(ws) + Le32(w)
  {
    hide Le32;
    if ws == [] {
      assert [w][1..] == [] && Words([w]) == Le32(w) + Words([]);
      assert [] + [w] == [w];
    } else {
      WordsAppend(ws[1..], w);
      assert (ws + [w])[1..] == ws[1..] + [w];
      assert Le32(ws[0]) + (Words(ws[1..]) + Le32(w)) == Le32(ws[0]) + Words(ws[1..]) + Le32(w);
    }
  }

  lemma TwoSplices(h: Header, offset: nat, a: seq<byte>, b: seq<byte>)
    requires offset + |a| + |b| <= HEADER_SIZE
    ensures Splice(Splice(h, offset, a), offset + |a|, b) == Splice(h, offset, a + b)
  {
  }

  /** A stretch of the header and what is written there. */
  datatype AnyBlock = Block(offset: nat, bytes: seq<byte>)

  type HeaderBlock = b: AnyBlock | b.offset + |b.bytes| <= HEADER_SIZE witness Block(0, [])

  function WriteAll(h: Header, blocks: seq<HeaderBlock>): Header {
    if blocks == [] then h
    else Splice(WriteAll(h, blocks[..|blocks| - 1]), blocks[|blocks| - 1].offset, blocks[|blocks| - 1].bytes)
  }

  predicate Apart(a: HeaderBlock, b: HeaderBlock) {
    a.offset + |a.bytes| <= b.offset || b.offset + |b.bytes| <= a.offset
  }

  ghost predicate AllApart(blocks: seq<HeaderBlock>) {
    forall i, j :: 0 <= i < j < |blocks| ==> Apart(blocks[i], blocks[j])
  }

  function ReadBlock(h: Header, b: HeaderBlock): seq<byte> { h[b.offset..b.offset + |b.bytes|] }

  /** Blocks that do not overlap all read back as written. */
  lemma {:induction false} BlocksReadBack(h: Header, blocks: seq<HeaderBlock>, i: nat)
    requires AllApart(blocks) && i < |blocks|
    ensures ReadBlock(WriteAll(h, blocks), blocks[i]) == blocks[i].bytes
  {
    hide Splice;
    var n := |blocks| - 1;
    var before := WriteAll(h, blocks[..n]);
    if i == n {
      SpliceThere(before, blocks[n].offset, blocks[n].bytes);
    } else {
      BlocksReadBack(h, blocks[..n], i);
      assert Apart(blocks[i], blocks[n]);
      SpliceElsewhere(before, blocks[n].offset, blocks[n].bytes, blocks[i].offset, blocks[i].offset + |blocks[i].bytes|);
    }
  }

  // ----- building -----

  datatype Params = Params(productId: string, hardwareId: string, appVersion: Version, buildId: string, minBootloader: Version)

  function OffsetB(imageA: seq<byte>): nat {
    AlignUpIsLeast(HEADER_SIZE + |imageA|, 0);
    AlignUp(HEADER_SIZE + |imageA|, PAYLOAD_ALIGNMENT)
  }

  function PackageSize(imageA: seq<byte>, imageB: seq<byte>): nat { OffsetB(imageA) + |imageB| }

  /** Both images with the gap between them filled. */
  function Payload(imageA: seq<byte>, imageB: seq<byte>): seq<byte> {
    AlignUpIsLeast(HEADER_SIZE + |imageA|, 0);
    imageA + Fill(255, OffsetB(imageA) - (HEADER_SIZE + |imageA|)) + imageB
  }

  function ImageWords(crc: Crc, slot: int, offset: int, image: seq<byte>, runOffset: int): seq<int> {
    [slot, offset, |image|, crc(image), runOffset, 0]
  }

  /** What the packager writes into the header, in its order. */
  function HeaderBlocks(crc: Crc, sha: Sha, imageA: seq<byte>, imageB: seq<byte>, p: Params,
                        product: seq<byte>, hardware: seq<byte>, build: seq<byte>): (blocks: seq<HeaderBlock>)
    requires |product| == TEXT_SIZE && |hardware| == TEXT_SIZE && |build| == TEXT_SIZE
    ensures |blocks| == 8
  {
    [Block(0, Words(Reduced([PACKAGE_MAGIC, PACKAGE_VERSION, HEADER_SIZE, PackageSize(imageA, imageB), 0, 2]))),
     Block(32, product), Block(64, hardware),
     Block(96, Words(Reduced([p.appVersion.major, p.appVersion.minor, p.appVersion.patch, PackVersion(p.minBootloader)]))),
     Block(112, build),
     Block(192, Words(Reduced(ImageWords(crc, 1, HEADER_SIZE, imageA, SLOT_A_RUN_OFFSET)))),
     Block(224, Words(Reduced(ImageWords(crc, 2, OffsetB(imageA), imageB, SLOT_B_RUN_OFFSET)))),
     Block(144, sha(Payload(imageA, imageB)))]
  }

  const BLANK_HEADER := Fill(255, HEADER_SIZE)

  function BuiltPackage(crc: Crc, sha: Sha, imageA: seq<byte>, imageB: seq<byte>, p: Params): Outcome<seq<byte>> {
    var product :- TextField(p.productId);
    var hardware :- TextField(p.hardwareId);
    var build :- TextField(p.buildId);
    Value(WriteAll(BLANK_HEADER, HeaderBlocks(crc, sha, imageA, imageB, p, product, hardware, build)) + Payload(imageA, imageB))
  }

  method PutWords(header: array<byte>, offset: nat, values: seq<int>)
    requires header.Length == HEADER_SIZE && offset + 4 * |values| <= HEADER_SIZE
    modifies header
    ensures header[..] == Splice(old(header[..]), offset, Words(Reduced(values)))
  {
    hide Words, Le32;
    ghost var was := header[..];
    assert Splice(was, offset, []) == was && Reduced([]) == [] && Words([]) == [];
    for i := 0 to |values|
      invariant header[..] == Splice(was, offset, Words(Reduced(values[..i])))
    {
      PutWord(header, offset + 4 * i, values[i]);
      WordsJoin(was, offset, values[..i], values[i]);
      assert values[..i + 1] == values[..i] + [values[i]];
    }
    assert values[..|values|] == values;
  }

  method PutBytes(header: array<byte>, offset: nat, bytes: seq<byte>)
    requires header.Length == HEADER_SIZE && offset + |bytes| <= HEADER_SIZE
    modifies header
    ensures header[..] == Splice(old(header[..]), offset, bytes)
  {
    forall i | 0 <= i < |bytes| {
      header[offset + i] := bytes[i];
    }
  }

  method PutWord(header: array<byte>, offset: nat, value: int)
    requires header.Length == HEADER_SIZE && offset + 4 <= HEADER_SIZE
    modifies header
    ensures header[..] == PutU32(old(header[..]), offset, value)
  {
    hide Le32;
    PutBytes(header, offset, Le32(value % WORD_LIMIT));
  }

  method BuildPackage(crc: Crc, sha: Sha, imageA: seq<byte>, imageB: seq<byte>, p: Params) returns (r: Outcome<seq<byte>>)
    ensures r == BuiltPackage(crc, sha, imageA, imageB, p)
  {
    hide Words, Splice, TextField, PackVersion, Payload, AlignUp, Reduced;
    var offsetA := HEADER_SIZE;
    var offsetB := OffsetB(imageA);
    var packageSize := offsetB + |imageB|;
    var header := new byte[HEADER_SIZE](_ => 255);
    assert header[..] == BLANK_HEADER;
    var product := TextField(p.productId);
    if product.Raised? {
      return Raised(product.error);
    }
    var hardware := TextField(p.hardwareId);
    if hardware.Raised? {
      return Raised(hardware.error);
    }
    var build := TextField(p.buildId);
    if build.Raised? {
      return Raised(build.error);
    }
    ghost var blocks := HeaderBlocks(crc, sha, imageA, imageB, p, product.value, hardware.value, build.value);
    WriteAllUnfolds(BLANK_HEADER, blocks);
    PutWords(header, 0, [PACKAGE_MAGIC, PACKAGE_VERSION, HEADER_SIZE, packageSize, 0, 2]);
    PutBytes(header, 32, product.value);
    PutBytes(header, 64, hardware.value);
    PutWords(header, 96, [p.appVersion.major, p.appVersion.minor, p.appVersion.patch, PackVersion(p.minBootloader)]);
    PutBytes(header, 112, build.value);
    PutWords(header, 192, ImageWords(crc, 1, offsetA, imageA, SLOT_A_RUN_OFFSET));
    PutWords(header, 224, ImageWords(crc, 2, offsetB, imageB, SLOT_B_RUN_OFFSET));
    PutBytes(header, 144, sha(Payload(imageA, imageB)));
    r := Value(header[..] + Payload(imageA, imageB));
  }

  lemma WriteAllUnfolds(h: Header, bs: seq<HeaderBlock>)
    requires |bs| == 8
    ensures WriteAll(h, bs) == Then(Then(Then(Then(Then(Then(Then(Then(h, bs[0]), bs[1]), bs[2]), bs[3]), bs[4]), bs[5]), bs[6]), bs[7])
  {
    hide Splice;
    WriteAllStep(h, bs, 1);
    WriteAllStep(h, bs, 2);
    WriteAllStep(h, bs, 3);
    WriteAllStep(h, bs, 4);
    WriteAllStep(h, bs, 5);
    WriteAllStep(h, bs, 6);
    WriteAllStep(h, bs, 7);
    WriteAllStep(h, bs, 8);
    assert bs[..8] == bs && bs[..0] == [];
  }

  function Then(h: Header, b: HeaderBlock): Header { Splice(h, b.offset, b.bytes) }

  lemma WriteAllStep(h: Header, bs: seq<HeaderBlock>, n: nat)
    requires 0 < n <= |bs|
    ensures WriteAll(h, bs[..n]) == Then(WriteAll(h, bs[..n - 1]), bs[n - 1])
  {
    assert bs[..n][..n - 1] == bs[..n - 1];
  }

  // ----- reading -----

  function ReadU32(h: Header, offset: nat): u32
    requires offset + 4 <= HEADER_SIZE
  {
    FromLe32(h[offset..offset + 4])
  }

  /** The bytes up to the first v. */
  function Upto(b: seq<byte>, v: byte): seq<byte> {
    if b == [] || b[0] == v then [] else [b[0]] + Upto(b[1..], v)
  }

  /** A byte that is not ASCII is replaced. */
  function AsText(b: seq<byte>): string {
    seq(|b|, i requires 0 <= i < |b| => if b[i] < 128 then b[i] as char else 0xFFFD as char)
  }

  function ReadText(h: Header, offset: nat): string
    requires offset + TEXT_SIZE <= HEADER_SIZE
  {
    TextOf(h[offset..offset + TEXT_SIZE])
  }

  /** A text ends at its first zero or 0xFF byte. */
  function TextOf(field: seq<byte>): string { AsText(Upto(Upto(field, 0), 255)) }

  datatype Entry = Entry(slot: u32, offset: u32, size: u32, crc32: u32, runOffset: u32, flags: u32)

  function ReadEntry(h: Header, cursor: nat): Entry
    requires cursor + 24 <= HEADER_SIZE
  {
    var w := ParseWords(h[cursor..cursor + 24], 6);
    Entry(w[0], w[1], w[2], w[3], w[4], w[5])
  }

  /** Entries past the end of the header cannot be read. */
  function ReadEntries(h: Header, n: nat): Outcome<seq<Entry>> {
    if n == 0 then Value([])
    else
      var before :- ReadEntries(h, n - 1);
      var cursor := 192 + (n - 1) * 32;
      if cursor + 24 > HEADER_SIZE then Raised(ReadPastEnd)
      else Value(before + [ReadEntry(h, cursor)])
  }

  datatype Info = Info(
    size: nat, crc32: u32, sha256: Digest, version: u32, headerSize: u32, packageSize: u32, imageCount: u32, productId: string, hardwareId: string,
    appVersion: (u32, u32, u32), minBootloader: u32, buildId: string, payloadSha256: seq<byte>, images: seq<Entry>)

  function ParsedPackage(crc: Crc, sha: Sha, data: seq<byte>): Outcome<Info> {
    if |data| < HEADER_SIZE then Raised(TooSmall)
    else
      var h: Header := data[..HEADER_SIZE];
      if ReadU32(h, 0) != PACKAGE_MAGIC then Raised(BadMagic)
      else if ReadU32(h, 12) != |data| then Raised(SizeMismatch)
      else
        var images :- ReadEntries(h, ReadU32(h, 20));
        Value(Info(|data|, crc(data), sha(data), ReadU32(h, 4), ReadU32(h, 8), ReadU32(h, 12), ReadU32(h, 20), ReadText(h, 32),
                   ReadText(h, 64), (ReadU32(h, 96), ReadU32(h, 100), ReadU32(h, 104)), ReadU32(h, 108), ReadText(h, 112), h[144..176], images))
  }

  lemma {:induction false} RaisedEntries(h: Header, i: nat, n: nat)
    requires i <= n && ReadEntries(h, i).Raised?
    ensures ReadEntries(h, n) == ReadEntries(h, i)
    decreases n
  {
    if i < n { RaisedEntries(h, i, n - 1); }
  }

  method ParsePackage(crc: Crc, sha: Sha, data: seq<byte>) returns (r: Outcome<Info>)
    ensures r == ParsedPackage(crc, sha, data)
  {
    hide ReadEntry, ReadText, ReadU32;
    if |data| < HEADER_SIZE {
      return Raised(TooSmall);
    }
    var header: Header := data[..HEADER_SIZE];
    if ReadU32(header, 0) != PACKAGE_MAGIC {
      return Raised(BadMagic);
    }
    var packageSize := ReadU32(header, 12);
    if packageSize != |data| {
      return Raised(SizeMismatch);
    }
    var images: seq<Entry> := [];
    var imageCount := ReadU32(header, 20);
    for index := 0 to imageCount
      invariant ReadEntries(header, index) == Value(images)
    {
      var cursor := 192 + index * 32;
      if cursor + 24 > HEADER_SIZE {
        assert ReadEntries(header, index + 1) == Raised(ReadPastEnd);
        RaisedEntries(header, index + 1, imageCount);
        return Raised(ReadPastEnd);
      }
      images := images + [ReadEntry(header, cursor)];
    }
    r := Value(Info(|data|, crc(data), sha(data), ReadU32(header, 4), ReadU32(header, 8), packageSize, imageCount, ReadText(header, 32),
                    ReadText(header, 64), (ReadU32(header, 96), ReadU32(header, 100), ReadU32(header, 104)),
                    ReadU32(header, 108), ReadText(header, 112), header[144..176], images));
  }

  // ----- the round trip -----

  lemma {:induction false} UptoFirst(b: seq<byte>, v: byte, k: nat)
    requires k < |b| && b[k] == v && forall i :: 0 <= i < k ==> b[i] != v
    ensures Upto(b, v) == b[..k]
  {
    if k > 0 {
      UptoFirst(b[1..], v, k - 1);
      assert b[..k] == [b[0]] + b[1..][..k - 1];
    } else {
      assert b[..0] == [];
    }
  }

  lemma {:induction false} UptoNone(b: seq<byte>, v: byte)
    requires v !in b
    ensures Upto(b, v) == b
  {
    if b != [] { UptoNone(b[1..], v); }
  }

  lemma {:induction false} UptoStops(b: seq<byte>, v: byte)
    ensures v !in Upto(b, v) && |Upto(b, v)| <= |b|
  {
    if b != [] { UptoStops(b[1..], v); }
  }

  lemma AsciiAsText(text: string)
    requires IsAscii(text)
    ensures AsText(Ascii(text)) == text
  {
    forall i | 0 <= i < |text| ensures AsText(Ascii(text))[i] == text[i] {
      assert text[i] in text;
    }
  }

  lemma TextWithoutNul(text: string)
    requires TextField(text).Value? && '\0' !in text
    ensures TextOf(TextField(text).value) == text
  {
    var field, a := TextField(text).value, Ascii(text);
    forall i | 0 <= i < |text| ensures field[i] == a[i] && a[i] != 0 && a[i] != 255 {
      assert text[i] in text;
    }
    UptoFirst(field, 0, |text|);
    assert field[..|text|] == a;
    UptoNone(a, 255);
    AsciiAsText(text);
  }

  lemma TextStopsAtNul(field: seq<byte>)
    ensures '\0' !in TextOf(field)
  {
    var u := Upto(field, 0);
    UptoStops(field, 0);
    UptoSubset(u, 255);
    var b := Upto(u, 255);
    forall i | 0 <= i < |b| ensures AsText(b)[i] != '\0' {
      assert b[i] in b;
    }
  }

  lemma {:induction false} UptoSubset(b: seq<byte>, v: byte)
    ensures forall x :: x in Upto(b, v) ==> x in b
  {
    if b != [] { UptoSubset(b[1..], v); }
  }

  /** A text comes back from its field exactly when it holds no NUL. */
  lemma TextRoundTripIff(text: string)
    requires TextField(text).Value?
    ensures TextOf(TextField(text).value) == text <==> '\0' !in text
  {
    hide TextField, TextOf;
    if '\0' !in text {
      TextWithoutNul(text);
    } else {
      TextStopsAtNul(TextField(text).value);
    }
  }

  lemma {:induction false} WordsAt(b: seq<byte>, ws: seq<u32>, i: nat)
    requires b == Words(ws) && i < |ws|
    ensures FromLe32(b[4 * i..4 * i + 4]) == ws[i]
    decreases i
  {
    hide Le32, FromLe32;
    if i == 0 {
      Le32RoundTrip(ws[0]);
      assert b[..4] == Le32(ws[0]);
    } else {
      assert b[4..] == Words(ws[1..]);
      WordsAt(b[4..], ws[1..], i - 1);
      SliceOfSlice(b, 4, |b|, 4 * (i - 1), 4 * (i - 1) + 4);
      assert b[4..|b|] == b[4..] && 4 + (4 * (i - 1) + 4) == 4 * i + 4;
    }
  }

  lemma WordInBlock(h: Header, offset: nat, values: seq<int>, i: nat)
    requires offset + 4 * |values| <= HEADER_SIZE && i < |values|
    requires h[offset..offset + 4 * |values|] == Words(Reduced(values))
    ensures ReadU32(h, offset + 4 * i) == values[i] % WORD_LIMIT
  {
    hide FromLe32, Words;
    WordsAt(h[offset..offset + 4 * |values|], Reduced(values), i);
    SliceOfSlice(h, offset, offset + 4 * |values|, 4 * i, 4 * i + 4);
  }

  /** The header a package is built with. */
  ghost predicate HeaderOf(h: Header, crc: Crc, sha: Sha, imageA: seq<byte>, imageB: seq<byte>, p: Params) {
    && TextField(p.productId).Value? && TextField(p.hardwareId).Value? && TextField(p.buildId).Value?
    && var blocks := HeaderBlocks(crc, sha, imageA, imageB, p, TextField(p.productId).value, TextField(p.hardwareId).value,
                                  TextField(p.buildId).value);
    forall i :: 0 <= i < 8 ==> ReadBlock(h, blocks[i]) == blocks[i].bytes
  }

  lemma BuiltHeader(crc: Crc, sha: Sha, imageA: seq<byte>, imageB: seq<byte>, p: Params)
    requires BuiltPackage(crc, sha, imageA, imageB, p).Value?
    ensures var data := BuiltPackage(crc, sha, imageA, imageB, p).value;
            |data| >= HEADER_SIZE && HeaderOf(data[..HEADER_SIZE], crc, sha, imageA, imageB, p)
            && data[HEADER_SIZE..] == Payload(imageA, imageB)
  {
    hide TextField, Words, PackVersion, Payload, Splice, AlignUp, ReadBlock, Reduced;
    var blocks := HeaderBlocks(crc, sha, imageA, imageB, p, TextField(p.productId).value, TextField(p.hardwareId).value,
                               TextField(p.buildId).value);
    BlocksAreApart(crc, sha, imageA, imageB, p, TextField(p.productId).value, TextField(p.hardwareId).value, TextField(p.buildId).value);
    var h := WriteAll(BLANK_HEADER, blocks);
    forall i | 0 <= i < 8 ensures ReadBlock(h, blocks[i]) == blocks[i].bytes {
      BlocksReadBack(BLANK_HEADER, blocks, i);
    }
    FirstPart(h, Payload(imageA, imageB));
  }

  lemma FirstPart(h: Header, payload: seq<byte>)
    ensures (h + payload)[..HEADER_SIZE] == h && (h + payload)[HEADER_SIZE..] == payload
  {
  }

  lemma BlocksAreApart(crc: Crc, sha: Sha, imageA: seq<byte>, imageB: seq<byte>, p: Params,
                       product: seq<byte>, hardware: seq<byte>, build: seq<byte>)
    requires |product| == TEXT_SIZE && |hardware| == TEXT_SIZE && |build| == TEXT_SIZE
    ensures AllApart(HeaderBlocks(crc, sha, imageA, imageB, p, product, hardware, build))
  {
    hide Words, PackVersion, Payload, AlignUp, Reduced;
    var bs := HeaderBlocks(crc, sha, imageA, imageB, p, product, hardware, build);
    forall i, j | 0 <= i < j < 8 ensures Apart(bs[i], bs[j]) {
      var b, c := bs[i], bs[j];
      assert j == 7 || b.offset + |b.bytes| <= c.offset;
    }
  }

  /** Everything the card builder reports about a package is what the packager was given. */
  ghost predicate Recovers(info: Info, crc: Crc, sha: Sha, imageA: seq<byte>, imageB: seq<byte>, p: Params) {
    && info.size == info.packageSize == PackageSize(imageA, imageB)
    && info.version == PACKAGE_VERSION && info.headerSize == HEADER_SIZE && info.imageCount == 2
    && (info.productId == p.productId <==> '\0' !in p.productId)
    && (info.hardwareId == p.hardwareId <==> '\0' !in p.hardwareId)
    && (info.buildId == p.buildId <==> '\0' !in p.buildId)
    && info.appVersion == (p.appVersion.major % WORD_LIMIT, p.appVersion.minor % WORD_LIMIT, p.appVersion.patch % WORD_LIMIT)
    && info.minBootloader == PackVersion(p.minBootloader) % WORD_LIMIT
    && info.payloadSha256 == sha(Payload(imageA, imageB))
    && info.images == Entries(crc, imageA, imageB)
  }

  function Entries(crc: Crc, imageA: seq<byte>, imageB: seq<byte>): seq<Entry> {
    [Entry(1, HEADER_SIZE, |imageA| % WORD_LIMIT, crc(imageA), SLOT_A_RUN_OFFSET, 0),
     Entry(2, OffsetB(imageA) % WORD_LIMIT, |imageB| % WORD_LIMIT, crc(imageB), SLOT_B_RUN_OFFSET, 0)]
  }

  lemma EntryInBlock(h: Header, cursor: nat, values: seq<int>)
    requires cursor + 24 <= HEADER_SIZE && |values| == 6 && h[cursor..cursor + 24] == Words(Reduced(values))
    ensures var r := Reduced(values); ReadEntry(h, cursor) == Entry(r[0], r[1], r[2], r[3], r[4], r[5])
  {
    WordsRoundTrip(Reduced(values));
  }

  lemma TwoEntries(h: Header, crc: Crc, sha: Sha, imageA: seq<byte>, imageB: seq<byte>, p: Params)
    requires HeaderOf(h, crc, sha, imageA, imageB, p)
    ensures ReadEntries(h, 2) == Value(Entries(crc, imageA, imageB))
  {
    hide TextField, Words, PackVersion, Payload, AlignUp, ReadEntry;
    var blocks := HeaderBlocks(crc, sha, imageA, imageB, p, TextField(p.productId).value, TextField(p.hardwareId).value,
                               TextField(p.buildId).value);
    assert ReadBlock(h, blocks[5]) == blocks[5].bytes && ReadBlock(h, blocks[6]) == blocks[6].bytes;
    EntryInBlock(h, 192, ImageWords(crc, 1, HEADER_SIZE, imageA, SLOT_A_RUN_OFFSET));
    EntryInBlock(h, 224, ImageWords(crc, 2, OffsetB(imageA), imageB, SLOT_B_RUN_OFFSET));
    assert ReadEntry(h, 192) == Entries(crc, imageA, imageB)[0];
    assert ReadEntry(h, 224) == Entries(crc, imageA, imageB)[1];
    assert Entries(crc, imageA, imageB) == [ReadEntry(h, 192)] + [ReadEntry(h, 224)];
    assert ReadEntries(h, 0) == Value([]) && [] + [ReadEntry(h, 192)] == [ReadEntry(h, 192)];
    assert ReadEntries(h, 1) == Value([ReadEntry(h, 192)]);
    assert ReadEntries(h, 2) == Value([ReadEntry(h, 192)] + [ReadEntry(h, 224)]);
  }

  lemma HeaderWords(h: Header, crc: Crc, sha: Sha, imageA: seq<byte>, imageB: seq<byte>, p: Params)
    requires HeaderOf(h, crc, sha, imageA, imageB, p)
    ensures ReadU32(h, 0) == PACKAGE_MAGIC && ReadU32(h, 4) == PACKAGE_VERSION && ReadU32(h, 8) == HEADER_SIZE
    ensures ReadU32(h, 12) == PackageSize(imageA, imageB) % WORD_LIMIT && ReadU32(h, 20) == 2
  {
    hide TextField, Words, PackVersion, Payload, AlignUp, ReadU32;
    var blocks := HeaderBlocks(crc, sha, imageA, imageB, p, TextField(p.productId).value, TextField(p.hardwareId).value,
                               TextField(p.buildId).value);
    assert ReadBlock(h, blocks[0]) == blocks[0].bytes;
    var values := [PACKAGE_MAGIC, PACKAGE_VERSION, HEADER_SIZE, PackageSize(imageA, imageB), 0, 2];
    WordInBlock(h, 0, values, 0);
    WordInBlock(h, 0, values, 1);
    WordInBlock(h, 0, values, 2);
    WordInBlock(h, 0, values, 3);
    WordInBlock(h, 0, values, 5);
  }

  lemma VersionWords(h: Header, crc: Crc, sha: Sha, imageA: seq<byte>, imageB: seq<byte>, p: Params)
    requires HeaderOf(h, crc, sha, imageA, imageB, p)
    ensures ReadU32(h, 96) == p.appVersion.major % WORD_LIMIT && ReadU32(h, 100) == p.appVersion.minor % WORD_LIMIT
    ensures ReadU32(h, 104) == p.appVersion.patch % WORD_LIMIT && ReadU32(h, 108) == PackVersion(p.minBootloader) % WORD_LIMIT
  {
    hide TextField, Words, PackVersion, Payload, AlignUp, ReadU32;
    var blocks := HeaderBlocks(crc, sha, imageA, imageB, p, TextField(p.productId).value, TextField(p.hardwareId).value,
                               TextField(p.buildId).value);
    assert ReadBlock(h, blocks[3]) == blocks[3].bytes;
    var values := [p.appVersion.major, p.appVersion.minor, p.appVersion.patch, PackVersion(p.minBootloader)];
    WordInBlock(h, 96, values, 0);
    WordInBlock(h, 96, values, 1);
    WordInBlock(h, 96, values, 2);
    WordInBlock(h, 96, values, 3);
  }

  lemma HeaderTexts(h: Header, crc: Crc, sha: Sha, imageA: seq<byte>, imageB: seq<byte>, p: Params)
    requires HeaderOf(h, crc, sha, imageA, imageB, p)
    ensures ReadText(h, 32) == p.productId <==> '\0' !in p.productId
    ensures ReadText(h, 64) == p.hardwareId <==> '\0' !in p.hardwareId
    ensures ReadText(h, 112) == p.buildId <==> '\0' !in p.buildId
    ensures h[144..176] == sha(Payload(imageA, imageB))
  {
    hide TextField, Words, PackVersion, Payload, AlignUp, TextOf, Reduced;
    var blocks := HeaderBlocks(crc, sha, imageA, imageB, p, TextField(p.productId).value, TextField(p.hardwareId).value,
                               TextField(p.buildId).value);
    assert ReadBlock(h, blocks[1]) == blocks[1].bytes && ReadBlock(h, blocks[2]) == blocks[2].bytes;
    assert ReadBlock(h, blocks[4]) == blocks[4].bytes && ReadBlock(h, blocks[7]) == blocks[7].bytes;
    TextRoundTripIff(p.productId);
    TextRoundTripIff(p.hardwareId);
    TextRoundTripIff(p.buildId);
  }

  /** The card builder accepts what the packager builds exactly when its length fits the size field, and then reports
      every field as it was given. */
  lemma PackageRoundTripIff(crc: Crc, sha: Sha, imageA: seq<byte>, imageB: seq<byte>, p: Params)
    requires BuiltPackage(crc, sha, imageA, imageB, p).Value?
    ensures var data := BuiltPackage(crc, sha, imageA, imageB, p).value;
            var parsed := ParsedPackage(crc, sha, data);
            && |data| == PackageSize(imageA, imageB)
            && (parsed.Value? <==> |data| < WORD_LIMIT)
            && (parsed.Value? ==> Recovers(parsed.value, crc, sha, imageA, imageB, p))
            && (parsed.Value? ==> parsed.value.crc32 == crc(data) && parsed.value.sha256 == sha(data))
            && (parsed.Raised? ==> parsed.error == SizeMismatch)
  {
    var data := BuiltPackage(crc, sha, imageA, imageB, p).value;
    BuiltHeader(crc, sha, imageA, imageB, p);
    PayloadParts(imageA, imageB);
    hide BuiltPackage, HeaderOf, Payload, OffsetB, Recovers, ParsedPackage;
    HeaderParses(data, crc, sha, imageA, imageB, p);
  }

  lemma HeaderParses(data: seq<byte>, crc: Crc, sha: Sha, imageA: seq<byte>, imageB: seq<byte>, p: Params)
    requires |data| >= HEADER_SIZE && HeaderOf(data[..HEADER_SIZE], crc, sha, imageA, imageB, p)
    requires |data| == PackageSize(imageA, imageB)
    ensures var parsed := ParsedPackage(crc, sha, data);
            && (parsed.Value? <==> |data| < WORD_LIMIT)
            && (parsed.Value? ==> Recovers(parsed.value, crc, sha, imageA, imageB, p))
            && (parsed.Value? ==> parsed.value.crc32 == crc(data) && parsed.value.sha256 == sha(data))
            && (parsed.Raised? ==> parsed.error == SizeMismatch)
  {
    hide HeaderOf, ReadU32, ReadText, ReadEntries, Payload, PackVersion, OffsetB, Entries, Recovers;
    var h := data[..HEADER_SIZE];
    HeaderWords(h, crc, sha, imageA, imageB, p);
    TwoEntries(h, crc, sha, imageA, imageB, p);
    var parsed := ParsedPackage(crc, sha, data);
    if parsed.Value? {
      FieldsRecovered(parsed.value, h, crc, sha, imageA, imageB, p);
    }
  }

  lemma FieldsRecovered(info: Info, h: Header, crc: Crc, sha: Sha, imageA: seq<byte>, imageB: seq<byte>, p: Params)
    requires HeaderOf(h, crc, sha, imageA, imageB, p)
    requires info == Info(PackageSize(imageA, imageB), info.crc32, info.sha256, ReadU32(h, 4), ReadU32(h, 8), ReadU32(h, 12),
                          ReadU32(h, 20), ReadText(h, 32), ReadText(h, 64), (ReadU32(h, 96), ReadU32(h, 100), ReadU32(h, 104)), ReadU32(h, 108), ReadText(h, 112),
                          h[144..176], Entries(crc, imageA, imageB))
    requires info.packageSize == info.size
    ensures Recovers(info, crc, sha, imageA, imageB, p)
  {
    hide HeaderOf, ReadU32, ReadText, Payload, PackVersion, OffsetB, Entries;
    HeaderWords(h, crc, sha, imageA, imageB, p);
    VersionWords(h, crc, sha, imageA, imageB, p);
    HeaderTexts(h, crc, sha, imageA, imageB, p);
  }

  /** The two images, each where its entry says, 0xFF between them, and nothing else. */
  lemma PayloadParts(imageA: seq<byte>, imageB: seq<byte>)
    ensures var payload, at := Payload(imageA, imageB), OffsetB(imageA) - HEADER_SIZE;
            && |imageA| <= at && HEADER_SIZE + |payload| == PackageSize(imageA, imageB) == HEADER_SIZE + at + |imageB|
            && payload[..|imageA|] == imageA && payload[at..at + |imageB|] == imageB
            && payload[|imageA|..at] == Fill(255, at - |imageA|)
  {
    hide AlignUp;
    AlignUpIsLeast(HEADER_SIZE + |imageA|, 0);
    var a, gap := imageA, Fill(255, OffsetB(imageA) - (HEADER_SIZE + |imageA|));
    assert (a + gap + imageB)[..|a|] == a && (a + gap + imageB)[|a|..|a| + |gap|] == gap;
    assert (a + gap + imageB)[|a| + |gap|..] == imageB;
  }

  /** Every region a parsed package lists slices back to its image; header and regions do not overlap. */
  lemma RegionsSliceBack(crc: Crc, sha: Sha, imageA: seq<byte>, imageB: seq<byte>, p: Params)
    requires BuiltPackage(crc, sha, imageA, imageB, p).Value? && PackageSize(imageA, imageB) < WORD_LIMIT
    ensures ParsedPackage(crc, sha, BuiltPackage(crc, sha, imageA, imageB, p).value).Value?
    ensures var data := BuiltPackage(crc, sha, imageA, imageB, p).value;
            var e := ParsedPackage(crc, sha, data).value.images;
            && |e| == 2 && HEADER_SIZE == e[0].offset && e[0].offset + e[0].size <= e[1].offset && e[1].offset + e[1].size == |data|
            && data[e[0].offset..e[0].offset + e[0].size] == imageA
            && data[e[1].offset..e[1].offset + e[1].size] == imageB
  {
    hide ParsedPackage, BuiltPackage, Payload, OffsetB, HeaderOf;
    PackageRoundTripIff(crc, sha, imageA, imageB, p);
    BuiltHeader(crc, sha, imageA, imageB, p);
    ImagesInData(BuiltPackage(crc, sha, imageA, imageB, p).value, imageA, imageB);
  }

  lemma ImagesInData(data: seq<byte>, imageA: seq<byte>, imageB: seq<byte>)
    requires |data| >= HEADER_SIZE && data[HEADER_SIZE..] == Payload(imageA, imageB)
    ensures HEADER_SIZE + |imageA| <= OffsetB(imageA) && OffsetB(imageA) + |imageB| == |data|
    ensures data[HEADER_SIZE..HEADER_SIZE + |imageA|] == imageA
    ensures data[OffsetB(imageA)..OffsetB(imageA) + |imageB|] == imageB
  {
    hide Payload, OffsetB;
    PayloadParts(imageA, imageB);
    var at := OffsetB(imageA);
    SliceOfSlice(data, HEADER_SIZE, |data|, 0, |imageA|);
    SliceOfSlice(data, HEADER_SIZE, |data|, at - HEADER_SIZE, at - HEADER_SIZE + |imageB|);
    assert data[HEADER_SIZE..|data|] == data[HEADER_SIZE..];
  }
}
