/** What holds wherever a boot ends, whatever the flash held before it. */
module BootSafety {
  import opened Bytes
  import opened Flash
  import opened Metadata
  import opened Partition
  import opened MetadataLog
  import opened MetadataRegister
  import opened BootPlan
  import opened CopyRuns
  import opened CopyConverges
  import opened CopyRecords

  // ----- no application is entered that cannot run -----

  /** The stack pointer lies in RAM and the reset handler is Thumb code. */
  predicate VectorRuns(mem: Image, offset: nat)
    requires offset + 8 <= TOTAL_SIZE
  {
    && 0x2000_0000 <= FromLe32(mem[offset..offset + 4]) <= 0x2008_2000
    && FromLe32(mem[offset + 4..offset + 8]) % 2 == 1
  }

  /** The image recorded for a slot is there, whole, and the reset handler lies inside it. */
  ghost predicate RecordedImageIsThere(crc: Crc, mem: Image, m: Metadata, slot: u32)
    requires SlotValid(slot)
  {
    var offset, size := SlotOffset(slot), SlotSize(m, slot);
    && size <= SlotCapacity(slot) && crc(mem[offset..offset + size]) == SlotCrc32(m, slot)
    && 0x1000_0000 + offset <= FromLe32(mem[offset + 4..offset + 8]) - 1 < 0x1000_0000 + offset + size
  }

  /** The slot at an offset. */
  function SlotAt(offset: nat): u32 { if offset == SLOT_A_OFFSET then SLOT_A else SLOT_B }

  /** An application that may be entered, as the log stands: it is in a slot, its vector is sound, and if it is the active one and
      its size is on record, it is the recorded image. */
  ghost predicate MayBeEntered(crc: Crc, mem: Image, m: Metadata, offset: nat) {
    && offset in {SLOT_A_OFFSET, SLOT_B_OFFSET} && VectorRuns(mem, offset)
    && (m.core.activeSlot == SlotAt(offset) && SlotSize(m, SlotAt(offset)) != 0 ==> RecordedImageIsThere(crc, mem, m, SlotAt(offset)))
  }

  lemma ValidMayBeEntered(crc: Crc, mem: Image, m: Metadata, slot: u32)
    requires SlotValid(slot) && SlotSize(m, slot) != 0 && ValidateSlotDirect(crc, mem, m, slot)
    ensures RecordedImageIsThere(crc, mem, m, slot) && VectorRuns(mem, SlotOffset(slot))
  {
    var offset := SlotOffset(slot);
    SliceOfSlice(mem, offset, offset + 8, 0, 4);
    SliceOfSlice(mem, offset, offset + 8, 4, 8);
    assert mem[offset..offset + 8][..4] == mem[offset..offset + 4] && mem[offset..offset + 8][4..] == mem[offset + 4..offset + 8];
  }

  lemma BootableMayBeEntered(crc: Crc, mem: Image, m: Metadata, slot: u32)
    requires DirectSlotBootable(crc, mem, m, slot)
    ensures MayBeEntered(crc, mem, m, SlotOffset(slot))
  {
    hide ValidateSlotAt, RecordedImageIsThere;
    if SlotSize(m, slot) != 0 { ValidMayBeEntered(crc, mem, m, slot); }
  }

  lemma FallbackMayBeEntered(crc: Crc, mem: Image, m: Metadata)
    ensures Fallback(crc, mem, m).Enter? ==> Fallback(crc, mem, m).offset == SLOT_A_OFFSET && MayBeEntered(crc, mem, m, SLOT_A_OFFSET)
    ensures Fallback(crc, mem, m).Halt? ==> (m.core.activeSlot == SLOT_A && m.core.slotASize != 0) || !VectorRuns(mem, SLOT_A_OFFSET)
  {
    hide ValidateSlotAt, RecordedImageIsThere;
    if ActiveAppOk(crc, mem, m) && m.core.activeSlot == SLOT_A && m.core.slotASize != 0 { ValidMayBeEntered(crc, mem, m, SLOT_A); }
  }

  /** Every boot, from any contents of the flash, in either mode, ends in an application that may be entered, as the log and the
      flash then are; it idles only if slot A does not hold a runnable application, or not the one recorded. */
  lemma EnteredMayRun(cfg: Config, mem: Image)
    ensures var boot := BootOf(cfg, mem);
            var after := RunWrites(cfg.crc, mem, boot.writes);
            && (boot.target.Enter? ==> MayBeEntered(cfg.crc, after, boot.metadata, boot.target.offset))
            && (boot.target.Halt? ==> (boot.metadata.core.activeSlot == SLOT_A && boot.metadata.core.slotASize != 0)
                                      || !VectorRuns(after, SLOT_A_OFFSET))
  {
    hide FirstPart, PrepareDirectBoot, RunWrites, Fallback, DirectSlotBootable, MayBeEntered, VectorRuns, Load;
    var boot := BootOf(cfg, mem);
    var after := RunWrites(cfg.crc, mem, boot.writes);
    FallbackMayBeEntered(cfg.crc, after, boot.metadata);
    if DirectSlotBootable(cfg.crc, after, boot.metadata, boot.metadata.core.activeSlot) {
      BootableMayBeEntered(cfg.crc, after, boot.metadata, boot.metadata.core.activeSlot);
    }
  }

  // ----- an update that is not installed -----

  /** The same program is recorded as the one to run. */
  ghost predicate SameActive(m: Metadata, r: Metadata) {
    && r.core.activeSlot == m.core.activeSlot && r.core.confirmedSlot == m.core.confirmedSlot
    && r.core.slotASize == m.core.slotASize && r.core.slotACrc32 == m.core.slotACrc32
    && r.core.rollbackCount == m.core.rollbackCount
  }

  lemma SameFallback(crc: Crc, mem: Image, after: Image, m: Metadata, r: Metadata)
    requires SlotsKept(mem, after) && SameActive(m, r)
    ensures Fallback(crc, after, r) == Fallback(crc, mem, m)
  {
    hide SlotsKept, VectorOk;
    SliceKept(mem, after, SLOT_A_OFFSET, SLOT_A_OFFSET + 8);
    SliceKept(mem, after, SLOT_A_OFFSET, SLOT_A_OFFSET + 4);
    SliceKept(mem, after, SLOT_A_OFFSET + 4, SLOT_A_OFFSET + 8);
    if m.core.slotASize <= SLOT_A_SIZE { SliceKept(mem, after, SLOT_A_OFFSET, SLOT_A_OFFSET + m.core.slotASize); }
  }

  lemma SliceKept(mem: Image, after: Image, lo: nat, hi: nat)
    requires SlotsKept(mem, after) && lo <= hi <= METADATA_OFFSET
    ensures after[lo..hi] == mem[lo..hi]
  {
    SliceOfPrefix(mem, METADATA_OFFSET, lo, hi);
    SliceOfPrefix(after, METADATA_OFFSET, lo, hi);
  }

  /** What a refused update leaves on record: the failure with its reason, in the transaction and as the result of the boot, and the
      attempts. */
  ghost predicate TellsFailure(job: Job, p: Plan, result: u32, attempts: nat) {
    && ReportsOnly(job, p, result) && p.metadata.core.bootAttempts == attempts
    && p.metadata.ext.copyTxnState == TXN_FAILED && p.metadata.ext.copyLastError == result
  }

  lemma FailureTells(crc: Crc, job: Job, m: Metadata, result: u32, written: u32)
    requires Keeps(job, m)
    ensures var p := StoreCopyFailure(crc, m, result, written).(ok := false);
            && SameActive(m, p.metadata) && ReportsOnly(job, p, result) && p.metadata.core.bootAttempts == m.core.bootAttempts
            && (m.ext.copyTxnState != TXN_NONE && written <= m.ext.copySize ==> TellsFailure(job, p, result, m.core.bootAttempts))
  {
    FailureReports(crc, job, m, result, written);
    FailureMarks(crc, job, m, result, written);
    hide ReportsOnly;
  }

  /** An image that does not validate costs an attempt, and is told of with its reason. */
  lemma InvalidStageTells(cfg: Config, mem: Image, job: Job, m: Metadata)
    requires Keeps(job, m) && job.size != 0 && m.core.bootAttempts < MAX_BOOT_ATTEMPTS && Staged(mem, job)
    requires !ValidStage(cfg.crc, mem, job) && (SaysDone(m) ==> Installed(mem, job))
    ensures var p := ApplyPending(cfg, mem, m);
            SameActive(m, p.metadata) && TellsFailure(job, p, RESULT_STAGE_VALIDATE_FAILED, m.core.bootAttempts + 1)
  {
    InvalidStageIsReported(cfg, mem, job, m);
    hide ValidateSlotAt, RunWrites, Staged, Installed, CountAndCopy, StoreCopyTransaction, SlotsKept, StoreCopyFailure, Follows, ReportsOnly;
    if SaysDone(m) { InstalledValidatesIff(cfg.crc, mem, mem, job); }
    StartedUnder(cfg.crc, job, m);
    TransactionFollows(cfg.crc, m, TXN_STARTED, 0, RESULT_NONE);
    var started := StoreCopyTransaction(cfg.crc, m, TXN_STARTED, 0, RESULT_NONE);
    var mem1 := RunWrites(cfg.crc, mem, started.writes);
    TransactionKeepsSlots(cfg.crc, mem, m, TXN_STARTED, 0, RESULT_NONE);
    SlotsKeptParts(mem, mem1, job);
    StagedValidatesAlike(cfg.crc, mem, mem1, job);
    InvalidCountTells(cfg, mem1, job, started.metadata);
  }

  lemma InvalidCountTells(cfg: Config, mem: Image, job: Job, m: Metadata)
    requires Under(job, m) && m.core.bootAttempts < MAX_BOOT_ATTEMPTS && Staged(mem, job) && !ValidStage(cfg.crc, mem, job)
    ensures var r := CountAndCopy(cfg, mem, m).metadata;
            && SameActive(m, r) && r.core.bootAttempts == m.core.bootAttempts + 1
            && r.ext.copyTxnState == TXN_FAILED && r.ext.copyLastError == RESULT_STAGE_VALIDATE_FAILED
  {
    hide ValidateSlotAt, RunWrites, Staged, CopySlotPlan, VerifyAndApply, StoreCopyFailure, SlotsKept, After, Body, ReportsOnly;
    var counted := Stored(IncrementBootAttempts(cfg.crc, m), m);
    CountedUnder(cfg.crc, job, m);
    CountStep(cfg.crc, m);
    CountKeepsSlots(cfg.crc, mem, m);
    CountKeepsActive(cfg.crc, m);
    hide IncrementBootAttempts;
    var mem1 := RunWrites(cfg.crc, mem, counted.writes);
    SlotsKeptParts(mem, mem1, job);
    StagedValidatesAlike(cfg.crc, mem, mem1, job);
    FailureTells(cfg.crc, job, counted.metadata, RESULT_STAGE_VALIDATE_FAILED, 0);
    KeepsFields(job, m, counted.metadata);
    EffectOfAfter(counted.writes, StoreCopyFailure(cfg.crc, counted.metadata, RESULT_STAGE_VALIDATE_FAILED, 0).(ok := false));
  }

  lemma EffectOfAfter(ws: seq<Write>, p: Plan)
    ensures After(ws, p).metadata == p.metadata && After(ws, p).ok == p.ok
  {
  }

  lemma CountKeepsActive(crc: Crc, m: Metadata)
    ensures SameActive(m, Stored(IncrementBootAttempts(crc, m), m).metadata)
  {
  }

  /** So does an update with no attempt left, or of no size, which costs nothing more. */
  lemma ExhaustedTells(cfg: Config, mem: Image, job: Job, m: Metadata)
    requires Keeps(job, m) && (job.size == 0 || !CanFinish(m))
    ensures var p := ApplyPending(cfg, mem, m);
            && SameActive(m, p.metadata) && ReportsOnly(job, p, RESULT_MAX_ATTEMPTS) && p.metadata.core.bootAttempts == m.core.bootAttempts
            && (m.ext.copyTxnState != TXN_NONE && m.ext.copyWritten <= m.ext.copySize ==>
                  TellsFailure(job, p, RESULT_MAX_ATTEMPTS, m.core.bootAttempts))
  {
    FailureTells(cfg.crc, job, m, RESULT_MAX_ATTEMPTS, m.ext.copyWritten);
    hide StoreCopyFailure, StoreCopyTransaction, CountAndCopy, CopyTransactionMatches, VectorOk, ReportsOnly, ApplyCopyToActiveDone;
  }

  /** An update that is not installed never costs the program that is: the boot ends where it would have ended without it. */
  lemma OldProgramStillRuns(cfg: Config, mem: Image, job: Job, e: nat)
    requires Pending(cfg, mem, job, e)
    requires job.size == 0 || !CanFinish(Load(cfg, mem))
             || (Load(cfg, mem).core.bootAttempts < MAX_BOOT_ATTEMPTS && !ValidStage(cfg.crc, mem, job))
    ensures BootOf(cfg, mem).target == Fallback(cfg.crc, mem, Load(cfg, mem))
    ensures SlotsKept(mem, RunWrites(cfg.crc, mem, BootOf(cfg, mem).writes))
  {
    hide LogInv, Load, ApplyPending, Staged, Installed, ValidStage, SaysDone, BootOf, Safe, RunWrites, Fallback, SlotsKept, Keeps, SameActive,
      OnlyRecords;
    var m := Load(cfg, mem);
    PendingBoot(cfg, mem, job, e);
    if job.size == 0 || !CanFinish(m) {
      ExhaustedTells(cfg, mem, job, m);
    } else {
      InvalidStageTells(cfg, mem, job, m);
    }
    var p := ApplyPending(cfg, mem, m);
    RecordsKeepSlots(cfg.crc, mem, p.writes);
    SameFallback(cfg.crc, mem, RunWrites(cfg.crc, mem, p.writes), m, p.metadata);
  }

  /** In copy mode nothing can be pending in slot A: such a request is recorded as none and taken back, an unknown slot is not even
      recorded, and the boot ends as without it. */
  lemma OnlySlotBIsInstalled(cfg: Config, mem: Image)
    requires Load(cfg, mem).ab.bootMode != MODE_DIRECT_AB && Load(cfg, mem).core.pendingSlot !in {SLOT_NONE, SLOT_B}
    ensures var m, boot := Load(cfg, mem), BootOf(cfg, mem);
            && boot.target == Fallback(cfg.crc, mem, m)
            && (m.core.pendingSlot != SLOT_A ==> boot.writes == [] && boot.metadata == m)
            && (m.core.pendingSlot == SLOT_A ==>
                  && boot.writes == [Put(boot.metadata)] && Follows(cfg.crc, m, boot.metadata)
                  && SameActive(m, boot.metadata)
                  && boot.metadata.core.pendingSlot == SLOT_NONE && boot.metadata.core.bootAttempts == 0
                  && boot.metadata.core.lastBootResult == RESULT_NO_PENDING && boot.metadata.core.lastBootSourceSlot == SLOT_A
                  && boot.metadata.core.lastBootSize == m.core.slotASize && boot.metadata.core.lastBootCrc32 == m.core.slotACrc32
                  && boot.metadata.ext.(metadataExtCrc32 := 0) == m.ext.(metadataExtCrc32 := 0)
                  && boot.metadata.ab.(metadataAbCrc32 := 0) == m.ab.(metadataAbCrc32 := 0))
  {
    hide Load, RunWrites, Fallback, SlotsKept, Follows, StoreOps, Apply;
    var m := Load(cfg, mem);
    var p := ApplyPending(cfg, mem, m);
    RunOne(cfg.crc, mem, Put(m));
    NoPendingRecord(cfg.crc, m);
    if m.core.pendingSlot == SLOT_A {
      RecordsKeepSlots(cfg.crc, mem, p.writes);
      SameFallback(cfg.crc, mem, RunWrites(cfg.crc, mem, p.writes), m, p.metadata);
    }
  }

  lemma NoPendingRecord(crc: Crc, m: Metadata)
    ensures var p := StoreResult(crc, m, RESULT_NO_PENDING, SLOT_A, true);
            && p.writes == [Put(p.metadata)] && Follows(crc, m, p.metadata) && p.metadata.ab.bootMode == m.ab.bootMode
            && SameActive(m, p.metadata)
  {
    CommittedFollows(crc, m, m.(core := m.core.(lastBootResult := RESULT_NO_PENDING, lastBootSourceSlot := SLOT_A,
      lastBootSize := m.core.slotASize, lastBootCrc32 := m.core.slotACrc32, pendingSlot := SLOT_NONE, bootAttempts := 0)));
  }
}
