/** What one boot decides and writes, as a function of the flash image it finds. */
module BootPlan {
  import opened Outcomes
  import opened Bytes
  import opened Bits
  import opened Flash
  import opened Metadata
  import opened Partition
  import opened MetadataLog

  const SRAM_BASE := 0x2000_0000
  const SRAM_END := 0x2008_2000
  const XIP_BASE := 0x1000_0000
  const MAX_BOOT_ATTEMPTS := 3
  const PROGRESS_STORE_BYTES := 64 * 1024

  // ----- validation -----

  /** The reset vector of an image that is to run at flash offset `run`. */
  predicate VectorOk(vector: seq<byte>, size: nat, run: nat)
    requires |vector| == 8
  {
    var sp, reset := FromLe32(vector[..4]), FromLe32(vector[4..]);
    var base := XIP_BASE + run;
    && size >= 8
    && SRAM_BASE <= sp <= SRAM_END
    && reset % 2 == 1
    && base <= reset - 1 < base + size
  }

  predicate ValidateSlotAt(crc: Crc, mem: Image, slot: u32, size: u32, imageCrc: u32, run: nat) {
    var offset := SlotOffset(slot);
    && offset != 0 && size != 0 && size <= SlotCapacity(slot)
    && VectorOk(mem[offset..offset + 8], size, run)
    && crc(mem[offset..offset + size]) == imageCrc
  }

  predicate ValidateSlotAsSlotA(crc: Crc, mem: Image, slot: u32, size: u32, imageCrc: u32) {
    ValidateSlotAt(crc, mem, slot, size, imageCrc, SLOT_A_OFFSET)
  }

  predicate ValidateSlotDirect(crc: Crc, mem: Image, m: Metadata, slot: u32) {
    ValidateSlotAt(crc, mem, slot, SlotSize(m, slot), SlotCrc32(m, slot), SlotOffset(slot))
  }

  predicate AppVectorOk(mem: Image, offset: nat)
    requires offset + 8 <= TOTAL_SIZE
  {
    var sp, reset := FromLe32(mem[offset..offset + 4]), FromLe32(mem[offset + 4..offset + 8]);
    SRAM_BASE <= sp <= SRAM_END && reset % 2 == 1
  }

  predicate DirectSlotBootable(crc: Crc, mem: Image, m: Metadata, slot: u32) {
    SlotValid(slot) &&
    if SlotSize(m, slot) != 0 then ValidateSlotDirect(crc, mem, m, slot) else AppVectorOk(mem, SlotOffset(slot))
  }

  predicate CopyTransactionMatches(m: Metadata) {
    && m.ext.copySourceSlot == SLOT_B && m.ext.copyDestinationSlot == SLOT_A
    && m.ext.copySize == m.core.slotBSize && m.ext.copyCrc32 == m.core.slotBCrc32
  }

  // ----- writes -----

  datatype Write = Put(record: Metadata) | Raw(op: FlashOp)

  function Expand(crc: Crc, w: Write): seq<FlashOp> {
    match w
    case Put(record) => StoreOps(crc, record)
    case Raw(op) => [op]
  }

  function ExpandAll(crc: Crc, ws: seq<Write>): seq<FlashOp> {
    if ws == [] then [] else Expand(crc, ws[0]) + ExpandAll(crc, ws[1..])
  }

  function RunWrites(crc: Crc, mem: Image, ws: seq<Write>): Image {
    Apply(mem, ExpandAll(crc, ws))
  }

  lemma {:induction false} ExpandConcat(crc: Crc, a: seq<Write>, b: seq<Write>)
    ensures ExpandAll(crc, a + b) == ExpandAll(crc, a) + ExpandAll(crc, b)
    decreases |a|
  {
    hide Expand;
    if a == [] {
      assert a + b == b;
    } else {
      ExpandConcat(crc, a[1..], b);
      assert (a + b)[1..] == a[1..] + b;
    }
  }

  lemma RunConcat(crc: Crc, mem: Image, a: seq<Write>, b: seq<Write>)
    ensures RunWrites(crc, mem, a + b) == RunWrites(crc, RunWrites(crc, mem, a), b)
  {
    hide Apply, Expand;
    ExpandConcat(crc, a, b);
    ApplyConcat(mem, ExpandAll(crc, a), ExpandAll(crc, b));
  }

  lemma RunOne(crc: Crc, mem: Image, w: Write)
    ensures RunWrites(crc, mem, [w]) == Apply(mem, Expand(crc, w)) && ExpandAll(crc, [w]) == Expand(crc, w)
    ensures RunWrites(crc, mem, []) == mem && ExpandAll(crc, []) == []
  {
    hide Expand, ApplyOp;
    assert [w][1..] == [] && ExpandAll(crc, []) == [];
    assert ExpandAll(crc, [w]) == Expand(crc, w) + [];
    assert Expand(crc, w) + [] == Expand(crc, w);
  }

  // ----- plans -----

  /** The writes of a boot step, the metadata it ends with in memory, and what it returns. */
  datatype Plan = Plan(writes: seq<Write>, metadata: Metadata, ok: bool)

  /** Change the metadata, then store it. */
  function Stored(changed: Option<Metadata>, m: Metadata): Plan {
    match changed
    case None => Plan([], m, false)
    case Some(r) => Plan([Put(r)], r, true)
  }

  function StoreCopyTransaction(crc: Crc, m: Metadata, state: u32, written: u32, lastError: u32): Plan {
    Stored(if state == TXN_STARTED then BeginCopy(crc, m, SLOT_B, SLOT_A, m.core.slotBSize, m.core.slotBCrc32)
           else UpdateCopy(crc, m, state, written, lastError), m)
  }

  function StoreResult(crc: Crc, m: Metadata, result: u32, source: u32, clearPending: bool): Plan {
    Stored(RecordBootResult(crc, m, result, source, clearPending), m)
  }

  function StoreCopyFailure(crc: Crc, m: Metadata, result: u32, written: u32): Plan {
    var failed := StoreCopyTransaction(crc, m, TXN_FAILED, written, result);
    var recorded := StoreResult(crc, failed.metadata, result, SLOT_B, false);
    Plan(failed.writes + recorded.writes, recorded.metadata, recorded.ok)
  }

  /** First these writes, then the plan. */
  function After(writes: seq<Write>, p: Plan): Plan { p.(writes := writes + p.writes) }

  // ----- copying a slot -----

  /** A size rounded up to whole sectors, as the C bit arithmetic does it. */
  function EraseSize(size: nat): int { And(size + SECTOR_SIZE - 1, Not(SECTOR_SIZE - 1)) }

  function Chunk(img: seq<byte>, copied: nat): nat
    requires copied <= |img|
  {
    if |img| - copied > PAGE_SIZE then PAGE_SIZE else |img| - copied
  }

  function PageAt(img: seq<byte>, copied: nat): (p: seq<byte>)
    requires copied <= |img|
    ensures |p| == PAGE_SIZE
  {
    img[copied..copied + Chunk(img, copied)] + Fill(255, PAGE_SIZE - Chunk(img, copied))
  }

  predicate LoopReady(img: seq<byte>, dst: nat, copied: nat) {
    dst + |img| + PAGE_SIZE <= TOTAL_SIZE && |img| < WORD_LIMIT && copied <= |img|
  }

  /** The copy loop from `copied` bytes on, with the next progress record due at `next`. */
  function CopyLoop(crc: Crc, m: Metadata, img: seq<byte>, dst: nat, copied: nat, next: nat): Plan
    requires LoopReady(img, dst, copied)
    decreases |img| - copied
  {
    if copied == |img| then Plan([], m, true)
    else
      var page := Raw(Program(dst + copied, PageAt(img, copied)));
      var now := copied + Chunk(img, copied);
      if now >= next || now >= |img| then
        var progress := StoreCopyTransaction(crc, m, TXN_PROGRAMMING, now, RESULT_NONE);
        if !progress.ok then Plan([page], m, false)
        else After([page] + progress.writes, CopyLoop(crc, progress.metadata, img, dst, now, next + PROGRESS_STORE_BYTES))
      else After([page], CopyLoop(crc, m, img, dst, now, next))
  }

  predicate CopyFits(source: u32, destination: u32, size: u32) {
    SlotOffset(source) != 0 && SlotOffset(destination) != 0 && size != 0 && size <= SlotCapacity(destination)
  }

  /** The bytes the copy loop reads: the source slot's, or erased cells when the slot is to be copied onto itself. */
  function CopySource(mem: Image, source: u32, destination: u32, size: u32): (img: seq<byte>)
    requires CopyFits(source, destination, size)
    ensures |img| == size
  {
    if source == destination then Fill(255, size) else mem[SlotOffset(source)..SlotOffset(source) + size]
  }

  function CopySlotPlan(crc: Crc, mem: Image, m: Metadata, source: u32, destination: u32, size: u32): Plan {
    if !CopyFits(source, destination, size) then Plan([], m, false)
    else
      var dst := SlotOffset(destination);
      EraseSizeBounds(size);
      var wipe := [Raw(Erase(dst, EraseSize(size)))];
      var erased := StoreCopyTransaction(crc, m, TXN_ERASED_ACTIVE, 0, RESULT_NONE);
      if !erased.ok then Plan(wipe, m, false)
      else
        var programming := StoreCopyTransaction(crc, erased.metadata, TXN_PROGRAMMING, 0, RESULT_NONE);
        if !programming.ok then Plan(wipe + erased.writes, erased.metadata, false)
        else
          After(wipe + erased.writes + programming.writes,
                CopyLoop(crc, programming.metadata, CopySource(mem, source, destination, size), dst, 0, PROGRESS_STORE_BYTES))
  }

  /** The erased span is the least number of whole sectors that holds the image, and stays inside a slot. */
  lemma EraseSizeBounds(size: nat)
    ensures EraseSize(size) % SECTOR_SIZE == 0
    ensures size <= EraseSize(size) < size + SECTOR_SIZE
    ensures size <= SLOT_A_SIZE ==> EraseSize(size) <= SLOT_A_SIZE
  {
    hide And, Shr, Pow2, Mask;
    var v := size + SECTOR_SIZE - 1;
    TwelveBits();
    AndNotMask(v, 12);
    ShrSplits(v, 12);
    LowBitsFit(v, 12);
    assert EraseSize(size) == Shr(v, 12) * 4096;
  }

  lemma TwelveBits()
    ensures Pow2(12) == 4096 && Mask(12) == 4095
  {
    EightBits();
    assert Pow2(9) == 512 && Pow2(10) == 1024 && Pow2(11) == 2048;
  }

  // ----- copy to active -----

  function ApplyPending(cfg: Config, mem: Image, m: Metadata): Plan {
    var crc, size, imageCrc := cfg.crc, m.core.slotBSize, m.core.slotBCrc32;
    if m.core.pendingSlot == SLOT_NONE then Plan([], m, false)
    else if m.core.pendingSlot != SLOT_B then
      StoreResult(crc, m, RESULT_NO_PENDING, m.core.pendingSlot, true).(ok := false)
    else if m.ext.copyTxnState == TXN_DONE && CopyTransactionMatches(m) && ValidateSlotAsSlotA(crc, mem, SLOT_A, size, imageCrc) then
      Stored(ApplyCopyToActiveDone(crc, m, SLOT_B, SLOT_A), m)
    else if size == 0 || m.core.bootAttempts >= MAX_BOOT_ATTEMPTS then
      StoreCopyFailure(crc, m, RESULT_MAX_ATTEMPTS, m.ext.copyWritten).(ok := false)
    else
      var started := StoreCopyTransaction(crc, m, TXN_STARTED, 0, RESULT_NONE);
      if !started.ok then Plan(started.writes, started.metadata, false)
      else After(started.writes, CountAndCopy(cfg, RunWrites(crc, mem, started.writes), started.metadata))
  }

  /** From the attempt count on, with the transaction started. */
  function CountAndCopy(cfg: Config, mem: Image, m: Metadata): Plan {
    var crc, size, imageCrc := cfg.crc, m.core.slotBSize, m.core.slotBCrc32;
    var counted := Stored(IncrementBootAttempts(crc, m), m);
    var mem1 := RunWrites(crc, mem, counted.writes);
    if !ValidateSlotAsSlotA(crc, mem1, SLOT_B, size, imageCrc) then
      After(counted.writes, StoreCopyFailure(crc, counted.metadata, RESULT_STAGE_VALIDATE_FAILED, 0).(ok := false))
    else
      var copy := CopySlotPlan(crc, mem1, counted.metadata, SLOT_B, SLOT_A, size);
      if !copy.ok then
        After(counted.writes + copy.writes,
              StoreCopyFailure(crc, copy.metadata, RESULT_COPY_FAILED, copy.metadata.ext.copyWritten).(ok := false))
      else After(counted.writes + copy.writes, VerifyAndApply(cfg, RunWrites(crc, mem1, copy.writes), copy.metadata))
  }

  /** From the verification of the copied slot on. */
  function VerifyAndApply(cfg: Config, mem: Image, m: Metadata): Plan {
    var crc, size, imageCrc := cfg.crc, m.core.slotBSize, m.core.slotBCrc32;
    var verifying := StoreCopyTransaction(crc, m, TXN_VERIFYING, size, RESULT_NONE);
    if !verifying.ok then verifying
    else if !ValidateSlotAsSlotA(crc, RunWrites(crc, mem, verifying.writes), SLOT_A, size, imageCrc) then
      After(verifying.writes,
            StoreCopyFailure(crc, verifying.metadata, RESULT_ACTIVE_VALIDATE_FAILED, size).(ok := false))
    else After(verifying.writes, Finish(crc, verifying.metadata, size))
  }

  /** Record the transaction as done, then the image as applied. */
  function Finish(crc: Crc, m: Metadata, size: u32): Plan {
    var done := StoreCopyTransaction(crc, m, TXN_DONE, size, RESULT_NONE);
    if !done.ok then done
    else After(done.writes, Stored(ApplyCopyToActiveDone(crc, done.metadata, SLOT_B, SLOT_A), done.metadata))
  }

  // ----- direct A/B -----

  function ApplyDirect(cfg: Config, mem: Image, m: Metadata): Plan {
    var crc, pending := cfg.crc, m.core.pendingSlot;
    if pending == SLOT_NONE then Plan([], m, false)
    else if !SlotValid(pending) || !SlotValid(m.core.activeSlot) then
      StoreResult(crc, m, RESULT_NO_PENDING, pending, true).(ok := false)
    else if m.core.bootAttempts >= MAX_BOOT_ATTEMPTS then
      StoreResult(crc, m, RESULT_MAX_ATTEMPTS, pending, true).(ok := false)
    else if !ValidateSlotDirect(crc, mem, m, pending) then
      StoreResult(crc, m, RESULT_STAGE_VALIDATE_FAILED, pending, true).(ok := false)
    else Stored(ApplyDirectAbPending(crc, m, pending), m)
  }

  function SelectRollbackSlot(crc: Crc, mem: Image, m: Metadata): u32 {
    if DirectSlotBootable(crc, mem, m, m.core.confirmedSlot) then m.core.confirmedSlot
    else if DirectSlotBootable(crc, mem, m, m.ab.previousSlot) then m.ab.previousSlot
    else SLOT_NONE
  }

  function DirectRollback(cfg: Config, mem: Image, m: Metadata, reason: u32, failed: u32): Plan {
    var slot := SelectRollbackSlot(cfg.crc, mem, m);
    if slot == SLOT_NONE then Plan([], m, false)
    else Stored(RollbackDirectAb(cfg.crc, m, reason, failed, slot), m)
  }

  function PrepareDirectBoot(cfg: Config, mem: Image, m: Metadata): Plan {
    var active := m.core.activeSlot;
    if !SlotValid(active) then Plan([], m, false)
    else if active == m.core.confirmedSlot then Plan([], m, true)
    else if m.core.bootAttempts >= MAX_BOOT_ATTEMPTS then DirectRollback(cfg, mem, m, RESULT_MAX_ATTEMPTS, active)
    else if !ValidateSlotDirect(cfg.crc, mem, m, active) then DirectRollback(cfg, mem, m, RESULT_ACTIVE_VALIDATE_FAILED, active)
    else Stored(IncrementBootAttempts(cfg.crc, m), m)
  }

  // ----- one boot -----

  /** Where a boot ends: in an application at a flash offset, or halted. */
  datatype Target = Enter(offset: nat) | Halt

  predicate ActiveAppOk(crc: Crc, mem: Image, m: Metadata) {
    if m.core.activeSlot == SLOT_A && m.core.slotASize != 0 then
      ValidateSlotAsSlotA(crc, mem, SLOT_A, m.core.slotASize, m.core.slotACrc32)
    else AppVectorOk(mem, SLOT_A_OFFSET)
  }

  function Fallback(crc: Crc, mem: Image, m: Metadata): Target {
    if ActiveAppOk(crc, mem, m) then Enter(SLOT_A_OFFSET) else Halt
  }

  datatype Boot = Boot(writes: seq<Write>, metadata: Metadata, target: Target)

  /** Applying what is pending, in the boot mode found. */
  function FirstPart(cfg: Config, mem: Image): Plan {
    var m := Load(cfg, mem);
    if m.ab.bootMode == MODE_DIRECT_AB then ApplyDirect(cfg, mem, m) else ApplyPending(cfg, mem, m)
  }

  function BootOf(cfg: Config, mem: Image): Boot {
    var first := FirstPart(cfg, mem);
    var mem1 := RunWrites(cfg.crc, mem, first.writes);
    if first.metadata.ab.bootMode != MODE_DIRECT_AB then
      Boot(first.writes, first.metadata, Fallback(cfg.crc, mem1, first.metadata))
    else
      var applied := Load(cfg, mem).ab.bootMode == MODE_DIRECT_AB && first.ok;
      var prepared := if applied then Plan([], first.metadata, true) else PrepareDirectBoot(cfg, mem1, first.metadata);
      var mem2, m := RunWrites(cfg.crc, mem, first.writes + prepared.writes), prepared.metadata;
      Boot(first.writes + prepared.writes, m,
           if prepared.ok && DirectSlotBootable(cfg.crc, mem2, m, m.core.activeSlot) then Enter(SlotOffset(m.core.activeSlot))
           else Fallback(cfg.crc, mem2, m))
  }
}
