/** Two flash sectors holding alternating metadata copies, used as a crash-safe register. */
module MetadataLog {
  import opened Outcomes
  import opened Bytes
  import opened Flash
  import opened Metadata
  import opened Partition

  /** The build: its checksum routine and its default boot mode. */
  datatype Config = Config(crc: Crc, defaultDirectAb: bool)

  function CopyOffset(index: nat): nat {
    if index == 0 then METADATA_OFFSET else METADATA_OFFSET + SECTOR_SIZE
  }

  function RecordBytes(mem: Image, index: nat): (b: seq<byte>)
    ensures |b| == RECORD_SIZE
  {
    mem[CopyOffset(index)..CopyOffset(index) + RECORD_SIZE]
  }

  // ----- load -----

  predicate V2IsValid(crc: Crc, c: Core) {
    c.magic == METADATA_MAGIC && c.version == VERSION_V2 && CoreCrc(crc, c) == c.metadataCrc32
  }

  function FromV2(crc: Crc, c: Core): Metadata {
    UpdateCrc(crc, Metadata(c.(version := METADATA_VERSION), Extension(0, 0, 0, 0, 0, 0, 0, 0, 0, 0), AB_DEFAULTS))
  }

  /** The record read from one copy, converted when only its older layout is valid. */
  function Candidate(crc: Crc, mem: Image, index: nat): Metadata {
    var m := Decode(RecordBytes(mem, index));
    if IsValid(crc, m) then m
    else if V2IsValid(crc, m.core) then FromV2(crc, m.core)
    else m
  }

  function SelectNewest(crc: Crc, copies: seq<Metadata>): Option<Metadata> {
    if copies == [] then None
    else
      var selected := SelectNewest(crc, copies[..|copies| - 1]);
      var candidate := copies[|copies| - 1];
      if !IsValid(crc, candidate) then selected
      else if selected == None || candidate.core.sequence > selected.value.core.sequence then Some(candidate)
      else selected
  }

  function Default(cfg: Config): Metadata {
    var m := DefaultMetadata(cfg.crc);
    if cfg.defaultDirectAb then SetBootMode(cfg.crc, m, MODE_DIRECT_AB).value else m
  }

  function LoadFrom(cfg: Config, copies: seq<Metadata>): Metadata {
    match SelectNewest(cfg.crc, copies)
    case Some(m) => UpgradeIfNeeded(cfg.crc, m)
    case None => Default(cfg)
  }

  function Load(cfg: Config, mem: Image): Metadata {
    LoadFrom(cfg, seq(2, i requires 0 <= i < 2 => Candidate(cfg.crc, mem, i)))
  }

  lemma LoadReadsBothCopies(cfg: Config, mem: Image)
    ensures Load(cfg, mem) == LoadFrom(cfg, [Candidate(cfg.crc, mem, 0), Candidate(cfg.crc, mem, 1)])
  {
    hide LoadFrom, Candidate;
    assert seq(2, i requires 0 <= i < 2 => Candidate(cfg.crc, mem, i)) == [Candidate(cfg.crc, mem, 0), Candidate(cfg.crc, mem, 1)];
  }

  method ReadCopy(cfg: Config, dev: Device, index: nat) returns (copy: Metadata)
    requires dev.Valid() && index < 2
    ensures copy == Candidate(cfg.crc, dev.Cells(), index)
  {
    var raw := dev.mem[CopyOffset(index)..CopyOffset(index) + RECORD_SIZE];
    assert raw == RecordBytes(dev.Cells(), index);
    copy := Decode(raw);
    if !IsValid(cfg.crc, copy) && V2IsValid(cfg.crc, copy.core) {
      copy := FromV2(cfg.crc, copy.core);
    }
  }

  method LoadMetadata(cfg: Config, dev: Device) returns (ok: bool, metadata: Metadata)
    requires dev.Valid()
    ensures ok && metadata == Load(cfg, dev.Cells())
  {
    hide Candidate, LoadFrom;
    ghost var mem := dev.Cells();
    var copies: seq<Metadata> := [];
    for i := 0 to 2
      invariant |copies| == i && forall k :: 0 <= k < i ==> copies[k] == Candidate(cfg.crc, mem, k)
    {
      var copy := ReadCopy(cfg, dev, i);
      copies := copies + [copy];
    }
    assert copies == seq(2, i requires 0 <= i < 2 => Candidate(cfg.crc, mem, i));
    ok := true;
    metadata := ChooseCopy(cfg, copies);
  }

  method ChooseCopy(cfg: Config, copies: seq<Metadata>) returns (metadata: Metadata)
    ensures metadata == LoadFrom(cfg, copies)
  {
    hide SelectNewest, UpgradeIfNeeded, Default;
    var selected := SelectNewest(cfg.crc, copies);
    metadata := if selected.Some? then UpgradeIfNeeded(cfg.crc, selected.value) else Default(cfg);
  }

  // ----- store -----

  function CopyIndex(m: Metadata): nat { m.core.sequence % 2 }

  /** A record padded to a flash page. */
  function Page(m: Metadata): (p: seq<byte>)
    ensures |p| == PAGE_SIZE
  {
    Encode(m) + Fill(255, PAGE_SIZE - RECORD_SIZE)
  }

  function EraseCopy(index: nat): FlashOp { Erase(CopyOffset(index), SECTOR_SIZE) }

  function StoreOps(crc: Crc, m: Metadata): (ops: seq<FlashOp>)
    ensures |ops| == 2
  {
    var s := UpdateCrc(crc, m);
    [EraseCopy(CopyIndex(s)), Program(CopyOffset(CopyIndex(s)), Page(s))]
  }

  /** Stores a record. It fails only when a write is refused, and then it has written a prefix of its two writes. */
  method StoreMetadata(cfg: Config, dev: Device, metadata: Metadata) returns (ok: bool)
    requires dev.Valid()
    modifies dev`log, dev.mem
    ensures ok ==> dev.log == old(dev.log) + StoreOps(cfg.crc, metadata)
                   && dev.Cells() == Apply(old(dev.Cells()), StoreOps(cfg.crc, metadata))
    ensures !ok ==> dev.core1Online
    ensures !ok ==> exists k :: 0 <= k < 2 && dev.log == old(dev.log) + StoreOps(cfg.crc, metadata)[..k]
                             && dev.Cells() == Apply(old(dev.Cells()), StoreOps(cfg.crc, metadata)[..k])
  {
    hide ApplyOp, EncodeCore, EncodeExt, EncodeAb, UpdateCrc, Splice;
    var stored := UpdateCrc(cfg.crc, metadata);
    var offset := CopyOffset(stored.core.sequence % 2);
    ghost var ops := StoreOps(cfg.crc, metadata);
    ghost var before, log := dev.Cells(), dev.log;
    TwoOps(before, ops[0], ops[1]);
    var erased := dev.Erase(offset, SECTOR_SIZE);
    if !erased {
      assert dev.log == log + ops[..0] && dev.Cells() == Apply(before, ops[..0]);
      return false;
    }
    ghost var middle := dev.Cells();
    assert middle == Apply(before, ops[..1]) && dev.log == log + ops[..1];
    ErasedPage(before, CopyIndex(stored), Page(stored));
    var src := Encode(stored);
    var written := 0;
    while written < RECORD_SIZE
      invariant written == 0 || written == PAGE_SIZE
      invariant written == 0 ==> dev.Cells() == middle && dev.log == log + [ops[0]]
      invariant written == PAGE_SIZE ==> dev.Cells() == ApplyOp(middle, ops[1]) && dev.log == log + [ops[0]] + [ops[1]]
    {
      var chunk := if RECORD_SIZE - written > PAGE_SIZE then PAGE_SIZE else RECORD_SIZE - written;
      var page := src[written..written + chunk] + Fill(255, PAGE_SIZE - chunk);
      assert page == Page(stored);
      var programmed := dev.Program(offset + written, page);
      if !programmed {
        SpliceThere(middle, offset, page);
        assert dev.log == log + ops[..1] && dev.Cells() == Apply(before, ops[..1]);
        return false;
      }
      written := written + PAGE_SIZE;
    }
    assert log + [ops[0]] + [ops[1]] == log + ops;
    var readback := dev.mem[offset..offset + RECORD_SIZE];
    SpliceThere(middle, offset, Page(stored));
    assert dev.Cells()[offset..offset + PAGE_SIZE] == Page(stored);
    SliceOfSlice(dev.Cells(), offset, offset + PAGE_SIZE, 0, RECORD_SIZE);
    ok := readback == src;
  }

  lemma TwoOps(mem: Image, a: FlashOp, b: FlashOp)
    ensures Apply(mem, [a, b]) == ApplyOp(ApplyOp(mem, a), b)
    ensures Apply(mem, [a]) == ApplyOp(mem, a)
    ensures [a, b][..0] == [] && [a, b][..1] == [a] && [a, b][..2] == [a, b]
  {
    assert [a, b][1..] == [b];
    assert Apply(ApplyOp(mem, a), [b]) == Apply(ApplyOp(ApplyOp(mem, a), b), []);
  }

  /** On an erased copy, programming the page simply stores it. */
  lemma ErasedPage(mem: Image, index: nat, page: seq<byte>)
    requires |page| == PAGE_SIZE
    ensures var erased := ApplyOp(mem, EraseCopy(index));
            ApplyOp(erased, Program(CopyOffset(index), page)) == Splice(erased, CopyOffset(index), page)
  {
    var erased, offset := ApplyOp(mem, EraseCopy(index)), CopyOffset(index);
    SpliceAt(mem, offset, Fill(255, SECTOR_SIZE));
    assert erased[offset..offset + PAGE_SIZE] == Fill(255, PAGE_SIZE);
    ProgramErased(erased, offset, page);
  }

  // ----- what a copy holds -----

  /** The valid record in a copy, if any. */
  function Live(crc: Crc, mem: Image, index: nat): Option<Metadata> {
    Checked(crc, Candidate(crc, mem, index))
  }

  function Checked(crc: Crc, m: Metadata): Option<Metadata> {
    if IsValid(crc, m) then Some(m) else None
  }

  function Newer(a: Option<Metadata>, b: Option<Metadata>): Option<Metadata> {
    if a.Some? && (b == None || b.value.core.sequence <= a.value.core.sequence) then a else b
  }

  lemma NewestOfTwo(crc: Crc, x: Metadata, y: Metadata)
    ensures SelectNewest(crc, [x, y]) == Newer(Checked(crc, x), Checked(crc, y))
  {
    assert [x, y][..1] == [x] && [x][..0] == [];
    assert SelectNewest(crc, []) == None;
    assert SelectNewest(crc, [x]) == Checked(crc, x);
  }

  /** The copy a load goes by: the valid one with the larger sequence, the first on a tie. */
  function Newest(crc: Crc, mem: Image): Option<Metadata> {
    Newer(Live(crc, mem, 0), Live(crc, mem, 1))
  }

  lemma LoadIsNewest(cfg: Config, mem: Image)
    ensures Load(cfg, mem) == match Newest(cfg.crc, mem)
                              case Some(m) => UpgradeIfNeeded(cfg.crc, m)
                              case None => Default(cfg)
  {
    LoadReadsBothCopies(cfg, mem);
    NewestOfTwo(cfg.crc, Candidate(cfg.crc, mem, 0), Candidate(cfg.crc, mem, 1));
    hide Candidate, Load, UpgradeIfNeeded, Default, SelectNewest, IsValid;
  }

  lemma SameBytesSameCopy(crc: Crc, mem: Image, after: Image, index: nat)
    requires RecordBytes(mem, index) == RecordBytes(after, index)
    ensures Live(crc, mem, index) == Live(crc, after, index)
  {
  }

  /** An erased copy is not valid in either layout: its magic reads 0xFFFFFFFF. */
  lemma ErasedCopyIsInvalid(crc: Crc, mem: Image, index: nat)
    ensures Live(crc, ApplyOp(mem, EraseCopy(index)), index) == None
  {
    var erased, offset := ApplyOp(mem, EraseCopy(index)), CopyOffset(index);
    SpliceAt(mem, offset, Fill(255, SECTOR_SIZE));
    var b := RecordBytes(erased, index);
    assert b == Fill(255, RECORD_SIZE);
    assert b[..132][..40][..4] == [255, 255, 255, 255];
    assert FromLe32([255, 255, 255, 255]) == 0xFFFF_FFFF;
    assert DecodeCore(b[..132]).magic == ParseWords(b[..132][..40], 10)[0];
  }

  lemma StoredCopyIsLive(crc: Crc, mem: Image, m: Metadata)
    requires Sealed(crc, m) && WellShaped(m) && Distinct(crc, m)
    ensures Live(crc, Apply(mem, StoreOps(crc, m)), CopyIndex(m)) == Some(m)
  {
    var index, offset := CopyIndex(m), CopyOffset(CopyIndex(m));
    var erased := ApplyOp(mem, EraseCopy(index));
    TwoOps(mem, EraseCopy(index), Program(offset, Page(m)));
    ErasedPage(mem, index, Page(m));
    var after := Splice(erased, offset, Page(m));
    SpliceThere(erased, offset, Page(m));
    assert RecordBytes(after, index) == after[offset..offset + PAGE_SIZE][..RECORD_SIZE];
    assert RecordBytes(after, index) == Encode(m);
    RecordRoundTrip(m);
    SealedIsAcceptedIff(crc, m);
  }

  // ----- power loss -----

  /** THE TEARING ASSUMPTION. An operation cut by a power loss leaves arbitrary bytes where it was working,
      and a metadata copy there is either not valid or holds the record it held before the operation or would
      hold after it: a half-written record does not pass its checksums. */
  ghost predicate Torn(crc: Crc, mem: Image, op: FlashOp, after: Image) {
    && TornBytes(mem, op, after)
    && forall i :: 0 <= i < 2 ==>
         Live(crc, after, i) in {None, Live(crc, mem, i), Live(crc, ApplyOp(mem, op), i)}
  }

  /** The images a power loss can leave while `ops` are carried out: between two of them or inside one. */
  ghost predicate CutDuring(crc: Crc, mem: Image, ops: seq<FlashOp>, after: Image)
    decreases |ops|
  {
    || after == mem
    || (ops != [] && (Torn(crc, mem, ops[0], after) || CutDuring(crc, ApplyOp(mem, ops[0]), ops[1..], after)))
  }

  lemma {:induction false} CutOfConcat(crc: Crc, mem: Image, a: seq<FlashOp>, b: seq<FlashOp>, after: Image)
    requires CutDuring(crc, mem, a + b, after)
    ensures CutDuring(crc, mem, a, after) || CutDuring(crc, Apply(mem, a), b, after)
    decreases |a|
  {
    hide Torn, ApplyOp;
    if a == [] {
      assert a + b == b;
    } else if after != mem && !Torn(crc, mem, a[0], after) {
      assert (a + b)[1..] == a[1..] + b;
      CutOfConcat(crc, ApplyOp(mem, a[0]), a[1..], b, after);
    }
  }

  /** Stopping between two operations is one of the cuts. */
  lemma {:induction false} PrefixIsCut(crc: Crc, mem: Image, ops: seq<FlashOp>, k: nat)
    requires k <= |ops|
    ensures CutDuring(crc, mem, ops, Apply(mem, ops[..k]))
    decreases k
  {
    hide Torn, ApplyOp;
    if k > 0 {
      PrefixIsCut(crc, ApplyOp(mem, ops[0]), ops[1..], k - 1);
      assert ops[..k][1..] == ops[1..][..k - 1];
    }
  }

  /** Bootloader and both slots are untouched. */
  ghost predicate SlotsKept(mem: Image, after: Image) {
    after[..METADATA_OFFSET] == mem[..METADATA_OFFSET]
  }

  /** Nothing but copy `index` changed: neither the slots nor the other copy. */
  ghost predicate OnlyCopyChanged(crc: Crc, mem: Image, after: Image, index: nat)
    requires index < 2
  {
    SlotsKept(mem, after) && Live(crc, after, 1 - index) == Live(crc, mem, 1 - index)
  }

  lemma CopyOpTouchesCopy(crc: Crc, mem: Image, op: FlashOp, after: Image, index: nat)
    requires 0 <= index < 2 && op.offset == CopyOffset(index) && Length(op) <= SECTOR_SIZE
    requires TornBytes(mem, op, after) || after == ApplyOp(mem, op)
    ensures OnlyCopyChanged(crc, mem, after, index)
  {
    TornElsewhere(mem, op, after, 0, METADATA_OFFSET);
    var other := 1 - index;
    TornElsewhere(mem, op, after, CopyOffset(other), CopyOffset(other) + RECORD_SIZE);
    SameBytesSameCopy(crc, mem, after, other);
  }

  /** The five images a cut in two operations can leave. */
  lemma CutOfTwo(crc: Crc, mem: Image, a: FlashOp, b: FlashOp, after: Image)
    ensures CutDuring(crc, mem, [a, b], after) <==>
      || after == mem || Torn(crc, mem, a, after)
      || after == ApplyOp(mem, a) || Torn(crc, ApplyOp(mem, a), b, after)
      || after == ApplyOp(ApplyOp(mem, a), b)
  {
    hide Torn, ApplyOp;
    var middle := ApplyOp(mem, a);
    assert [a, b][1..] == [b] && [b][1..] == [];
    assert CutDuring(crc, middle, [b], after) <==>
      after == middle || Torn(crc, middle, b, after) || CutDuring(crc, ApplyOp(middle, b), [], after);
  }

  /** Every image a power loss can leave while a record is stored differs from the one before in the copy being
      written only, and that copy is then invalid, unchanged or complete. */
  lemma StoreCut(crc: Crc, mem: Image, m: Metadata, after: Image)
    requires Sealed(crc, m) && WellShaped(m) && Distinct(crc, m)
    requires CutDuring(crc, mem, StoreOps(crc, m), after)
    ensures OnlyCopyChanged(crc, mem, after, CopyIndex(m))
    ensures Live(crc, after, CopyIndex(m)) in {None, Live(crc, mem, CopyIndex(m)), Some(m)}
  {
    var index := CopyIndex(m);
    var erase, program := EraseCopy(index), Program(CopyOffset(index), Page(m));
    assert StoreOps(crc, m) == [erase, program];
    hide Live, StoreOps, Apply, ApplyOp, UpdateCrc, TornBytes, Page, WellShaped, Distinct, CutDuring;
    var erased := ApplyOp(mem, erase);
    CutOfTwo(crc, mem, erase, program, after);
    TwoOps(mem, erase, program);
    ErasedCopyIsInvalid(crc, mem, index);
    StoredCopyIsLive(crc, mem, m);
    CopyOpTouchesCopy(crc, mem, erase, erased, index);
    if Torn(crc, mem, erase, after) {
      CopyOpTouchesCopy(crc, mem, erase, after, index);
    } else if after != mem && after != erased {
      CopyOpTouchesCopy(crc, erased, program, after, index);
    }
  }

  lemma StoreComplete(crc: Crc, mem: Image, m: Metadata)
    requires Sealed(crc, m) && WellShaped(m) && Distinct(crc, m)
    ensures OnlyCopyChanged(crc, mem, Apply(mem, StoreOps(crc, m)), CopyIndex(m))
    ensures Live(crc, Apply(mem, StoreOps(crc, m)), CopyIndex(m)) == Some(m)
    ensures CutDuring(crc, mem, StoreOps(crc, m), Apply(mem, StoreOps(crc, m)))
  {
    var erase, program := EraseCopy(CopyIndex(m)), Program(CopyOffset(CopyIndex(m)), Page(m));
    assert StoreOps(crc, m) == [erase, program];
    hide Live, StoreOps, Apply, ApplyOp, UpdateCrc, Page, WellShaped, Distinct, CutDuring;
    TwoOps(mem, erase, program);
    CutOfTwo(crc, mem, erase, program, Apply(mem, [erase, program]));
    StoreCut(crc, mem, m, Apply(mem, StoreOps(crc, m)));
    StoredCopyIsLive(crc, mem, m);
  }

  /** Erases one copy on purpose: nothing is lost but that copy. */
  method CorruptCopy(cfg: Config, dev: Device, index: nat) returns (ok: bool)
    requires dev.Valid()
    modifies dev`log, dev.mem
    ensures ok ==> index < 2 && Live(cfg.crc, dev.Cells(), index) == None
                   && OnlyCopyChanged(cfg.crc, old(dev.Cells()), dev.Cells(), index)
    ensures !ok ==> dev.Cells() == old(dev.Cells()) && (index >= 2 || dev.core1Online)
  {
    hide Live, ApplyOp;
    if index >= 2 {
      return false;
    }
    ghost var before := dev.Cells();
    ok := dev.Erase(CopyOffset(index), SECTOR_SIZE);
    if ok {
      ErasedCopyIsInvalid(cfg.crc, before, index);
      CopyOpTouchesCopy(cfg.crc, before, EraseCopy(index), dev.Cells(), index);
    }
  }

  /** What an upgrade must not lose: the slots, what is pending and what was confirmed. */
  ghost predicate SameSlots(a: Core, b: Core) {
    && a.activeSlot == b.activeSlot && a.pendingSlot == b.pendingSlot && a.confirmedSlot == b.confirmedSlot
    && a.bootAttempts == b.bootAttempts && a.rollbackCount == b.rollbackCount
    && a.slotASize == b.slotASize && a.slotACrc32 == b.slotACrc32 && a.slotASha256 == b.slotASha256
    && a.slotBSize == b.slotBSize && a.slotBCrc32 == b.slotBCrc32 && a.slotBSha256 == b.slotBSha256
  }

  /** Upgrading a valid record keeps its slots, seals it, and is final unless a checksum looks like an unwritten field. */
  lemma UpgradeIsFinalIffDistinct(crc: Crc, m: Metadata)
    requires IsValid(crc, m)
    ensures SameSlots(m.core, UpgradeIfNeeded(crc, m).core) && Sealed(crc, UpgradeIfNeeded(crc, m))
    ensures var u := UpgradeIfNeeded(crc, m); NeedsUpgrade(m) ==> (UpgradeIfNeeded(crc, u) == u <==> Distinct(crc, u))
  {
    if NeedsUpgrade(m) {
      UpgradedFields(crc, m);
      hide IsValid, UpgradeIfNeeded, UpdateCrc;
      UpgradeAgain(crc, UpgradeIfNeeded(crc, m));
    } else {
      SealedWhenValid(crc, m);
    }
  }

  lemma UpgradedFields(crc: Crc, m: Metadata)
    requires NeedsUpgrade(m)
    ensures var u := UpgradeIfNeeded(crc, m);
            SameSlots(m.core, u.core) && Sealed(crc, u) && u.core.version == METADATA_VERSION
  {
    var c := m.core.(version := METADATA_VERSION, sequence := Inc(m.core.sequence),
                     lastBootSourceSlot := if m.core.lastBootSourceSlot > SLOT_B then SLOT_NONE else m.core.lastBootSourceSlot);
    SealingIsIdempotent(crc, if Blank(m.ext.metadataExtCrc32) then Metadata(c, ExtensionDefaults(m.ext), AB_DEFAULTS)
                             else Metadata(c, m.ext, AB_DEFAULTS));
  }

  lemma UpgradeAgain(crc: Crc, u: Metadata)
    requires Sealed(crc, u) && u.core.version == METADATA_VERSION
    ensures UpgradeIfNeeded(crc, u) == u <==> Distinct(crc, u)
  {
    if NeedsUpgrade(u) {
      assert UpgradeIfNeeded(crc, u).core.sequence == Inc(u.core.sequence);
    }
  }

  lemma SealedWhenValid(crc: Crc, m: Metadata)
    requires IsValid(crc, m) && !NeedsUpgrade(m)
    ensures Sealed(crc, m)
  {
  }

  /** A version 2 record is converted with its slots kept, into a valid current record when its checksums are not blank. */
  lemma ConversionKeepsSlots(crc: Crc, c: Core)
    requires V2IsValid(crc, c)
    ensures SameSlots(c, FromV2(crc, c).core) && Sealed(crc, FromV2(crc, c))
    ensures Distinct(crc, FromV2(crc, c)) ==> IsValid(crc, FromV2(crc, c)) && !NeedsUpgrade(FromV2(crc, c))
  {
    SealingIsIdempotent(crc, Metadata(c.(version := METADATA_VERSION), Extension(0, 0, 0, 0, 0, 0, 0, 0, 0, 0), AB_DEFAULTS));
    SealedIsAcceptedIff(crc, FromV2(crc, c));
  }
}
