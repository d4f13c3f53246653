/** An uninterrupted boot installs a valid staged image. */
module CopyConverges {
  import opened Bytes
  import opened Flash
  import opened Metadata
  import opened Partition
  import opened MetadataLog
  import opened MetadataRegister
  import opened BootPlan
  import opened SlotCopy
  import opened PowerLoss
  import opened CopyRuns

  ghost predicate ValidStage(crc: Crc, mem: Image, job: Job) {
    ValidateSlotAsSlotA(crc, mem, SLOT_B, job.size, job.imageCrc)
  }

  ghost predicate ValidActive(crc: Crc, mem: Image, job: Job) {
    ValidateSlotAsSlotA(crc, mem, SLOT_A, job.size, job.imageCrc)
  }

  // ----- validation depends on the image bytes only -----

  /** The verdict on an image's own bytes, to run from slot A. */
  predicate ImageOk(crc: Crc, img: seq<byte>, imageCrc: u32) {
    |img| >= 8 && VectorOk(img[..8], |img|, SLOT_A_OFFSET) && crc(img) == imageCrc
  }

  lemma ValidatesItsBytes(crc: Crc, mem: Image, slot: u32, size: u32, imageCrc: u32)
    requires SlotValid(slot) && size <= SlotCapacity(slot)
    ensures ValidateSlotAsSlotA(crc, mem, slot, size, imageCrc)
       <==> ImageOk(crc, mem[SlotOffset(slot)..SlotOffset(slot) + size], imageCrc)
  {
    var offset := SlotOffset(slot);
    if size >= 8 {
      SliceOfSlice(mem, offset, offset + size, 0, 8);
    }
  }

  lemma StageBytes(mem: Image, job: Job)
    requires Staged(mem, job) && job.size <= SLOT_B_SIZE
    ensures job.size <= |job.stage| && mem[SLOT_B_OFFSET..SLOT_B_OFFSET + job.size] == job.stage[..job.size]
  {
    SliceOfSlice(mem, SLOT_B_OFFSET, SLOT_B_OFFSET + SLOT_B_SIZE, 0, job.size);
  }

  /** An installed image validates exactly when the staged one does. */
  lemma InstalledValidatesIff(crc: Crc, mem: Image, after: Image, job: Job)
    requires Staged(mem, job) && Installed(after, job)
    ensures ValidActive(crc, after, job) <==> ValidStage(crc, mem, job)
  {
    hide ValidateSlotAt, ImageOk;
    ValidatesItsBytes(crc, after, SLOT_A, job.size, job.imageCrc);
    ValidatesItsBytes(crc, mem, SLOT_B, job.size, job.imageCrc);
    StageBytes(mem, job);
    InstalledIsSlice(after, job);
  }

  lemma StagedValidatesAlike(crc: Crc, mem: Image, after: Image, job: Job)
    requires Staged(mem, job) && Staged(after, job)
    ensures ValidStage(crc, after, job) <==> ValidStage(crc, mem, job)
  {
    hide ImageOk;
    if job.size <= SLOT_B_SIZE {
      ValidatesItsBytes(crc, after, SLOT_B, job.size, job.imageCrc);
      ValidatesItsBytes(crc, mem, SLOT_B, job.size, job.imageCrc);
      StageBytes(mem, job);
      StageBytes(after, job);
    }
  }

  lemma ValidFits(crc: Crc, mem: Image, job: Job)
    requires ValidStage(crc, mem, job)
    ensures CopyFits(SLOT_B, SLOT_A, job.size) && job.size != 0
  {
    hide VectorOk;
  }

  // ----- every store of the boot succeeds -----

  /** The transaction of this very image is under way. */
  ghost predicate Under(job: Job, m: Metadata) {
    Keeps(job, m) && m.ext.copyTxnState != TXN_NONE && CopyTransactionMatches(m)
  }

  lemma TransactionUnder(crc: Crc, job: Job, m: Metadata, state: u32, written: u32)
    requires Under(job, m) && TXN_ERASED_ACTIVE <= state <= TXN_FAILED && written <= job.size
    ensures var p := StoreCopyTransaction(crc, m, state, written, RESULT_NONE);
            p.ok && Under(job, p.metadata) && p.metadata.ext.copyTxnState == state && p.metadata.ext.copySize == job.size
  {
  }

  lemma StartedUnder(crc: Crc, job: Job, m: Metadata)
    requires Keeps(job, m) && job.size != 0
    ensures var p := StoreCopyTransaction(crc, m, TXN_STARTED, 0, RESULT_NONE); p.ok && Under(job, p.metadata)
  {
  }

  lemma CountedUnder(crc: Crc, job: Job, m: Metadata)
    requires Under(job, m) && m.core.bootAttempts < MAX_BOOT_ATTEMPTS
    ensures var p := Stored(IncrementBootAttempts(crc, m), m); p.ok && Under(job, p.metadata)
  {
  }

  lemma CopyUnder(crc: Crc, job: Job, mem: Image, m: Metadata)
    requires Under(job, m) && m.ext.copyTxnState != TXN_DONE && 0 < m.core.bootAttempts && CopyFits(SLOT_B, SLOT_A, job.size)
    ensures var p := CopySlotPlan(crc, mem, m, SLOT_B, SLOT_A, job.size); p.ok && Under(job, p.metadata)
  {
    CopyClimbs(crc, job, mem, m);
    var f := CopySlotCarries(crc, job, mem, m, 0);
    hide CopySlotPlan;
    CarriesKeeps(crc, job, m, 0, CopySlotPlan(crc, mem, m, SLOT_B, SLOT_A, job.size), f);
  }

  lemma CopyClimbs(crc: Crc, job: Job, mem: Image, m: Metadata)
    requires Under(job, m) && CopyFits(SLOT_B, SLOT_A, job.size)
    ensures var p := CopySlotPlan(crc, mem, m, SLOT_B, SLOT_A, job.size);
            p.ok && p.metadata.ext.copyTxnState != TXN_NONE && p.metadata.ext.copySize == job.size
  {
    hide StoreCopyTransaction, CopyLoop, EraseSize, Keeps, RecordedProgress;
    TransactionUnder(crc, job, m, TXN_ERASED_ACTIVE, 0);
    var p1 := StoreCopyTransaction(crc, m, TXN_ERASED_ACTIVE, 0, RESULT_NONE);
    TransactionUnder(crc, job, p1.metadata, TXN_PROGRAMMING, 0);
    var p2 := StoreCopyTransaction(crc, p1.metadata, TXN_PROGRAMMING, 0, RESULT_NONE);
    ProgressClimbs(crc, p2.metadata, mem[SLOT_B_OFFSET..SLOT_B_OFFSET + job.size], SLOT_A_OFFSET, 0, PROGRESS_STORE_BYTES);
  }

  /** The plan ends with the image recorded as applied. */
  ghost predicate Applies(job: Job, p: Plan) { p.ok && SaysApplied(job, p.metadata) }

  lemma FinishApplies(crc: Crc, job: Job, m: Metadata)
    requires Under(job, m) && job.size != 0
    ensures Applies(job, Finish(crc, m, job.size))
  {
    hide StoreCopyTransaction, ApplyCopyToActiveDone, Keeps, SaysApplied, Tail;
    TransactionUnder(crc, job, m, TXN_DONE, job.size);
    var done := StoreCopyTransaction(crc, m, TXN_DONE, job.size, RESULT_NONE);
    SwitchIsTail(crc, job, done.metadata);
  }

  /** Verifying the installed copy of a valid image never fails: the branch that reports a bad active slot is dead. */
  lemma ActiveValidationNeverFails(crc: Crc, cfg: Config, mem: Image, job: Job, m: Metadata)
    requires crc == cfg.crc && Under(job, m) && Staged(mem, job) && Installed(mem, job) && ValidStage(crc, mem, job)
    ensures var verifying := StoreCopyTransaction(crc, m, TXN_VERIFYING, job.size, RESULT_NONE);
            && ValidActive(crc, RunWrites(crc, mem, verifying.writes), job)
            && VerifyAndApply(cfg, mem, m) == After(verifying.writes, Finish(crc, verifying.metadata, job.size))
  {
    hide StoreCopyTransaction, ValidateSlotAt, RunWrites, Finish, SlotsKept, Staged, Installed;
    TransactionUnder(crc, job, m, TXN_VERIFYING, job.size);
    var verifying := StoreCopyTransaction(crc, m, TXN_VERIFYING, job.size, RESULT_NONE);
    var mem1 := RunWrites(crc, mem, verifying.writes);
    TransactionKeepsSlots(crc, mem, m, TXN_VERIFYING, job.size, RESULT_NONE);
    SlotsKeptParts(mem, mem1, job);
    InstalledValidatesIff(crc, mem, mem1, job);
  }

  lemma VerifyApplies(cfg: Config, mem: Image, job: Job, m: Metadata)
    requires Under(job, m) && Staged(mem, job) && Installed(mem, job) && ValidStage(cfg.crc, mem, job)
    ensures Applies(job, VerifyAndApply(cfg, mem, m))
  {
    hide StoreCopyTransaction, ValidStage, ValidActive, RunWrites, Finish, Staged, Installed, VerifyAndApply, Keeps, SaysApplied;
    ValidFits(cfg.crc, mem, job);
    ActiveValidationNeverFails(cfg.crc, cfg, mem, job, m);
    TransactionUnder(cfg.crc, job, m, TXN_VERIFYING, job.size);
    FinishApplies(cfg.crc, job, StoreCopyTransaction(cfg.crc, m, TXN_VERIFYING, job.size, RESULT_NONE).metadata);
  }

  lemma CopyApplies(cfg: Config, mem: Image, job: Job, m: Metadata)
    requires Under(job, m) && m.ext.copyTxnState != TXN_DONE && 0 < m.core.bootAttempts
    requires Staged(mem, job) && ValidStage(cfg.crc, mem, job)
    ensures var copy := CopySlotPlan(cfg.crc, mem, m, SLOT_B, SLOT_A, job.size);
            copy.ok && Applies(job, VerifyAndApply(cfg, RunWrites(cfg.crc, mem, copy.writes), copy.metadata))
  {
    hide ValidateSlotAt, RunWrites, Staged, Installed, VerifyAndApply, Keeps, CopySlotPlan, Applies;
    ValidFits(cfg.crc, mem, job);
    CopyUnder(cfg.crc, job, mem, m);
    var copy := CopySlotPlan(cfg.crc, mem, m, SLOT_B, SLOT_A, job.size);
    var after := RunWrites(cfg.crc, mem, copy.writes);
    CopyInstalls(cfg.crc, mem, job, m);
    CopySlotCompletes(cfg.crc, mem, m, SLOT_B, SLOT_A, job.size);
    CopyKeepsStage(cfg.crc, mem, job, copy);
    StagedValidatesAlike(cfg.crc, mem, after, job);
    VerifyApplies(cfg, after, job, copy.metadata);
  }

  lemma CopyKeepsStage(crc: Crc, mem: Image, job: Job, p: Plan)
    requires Staged(mem, job) && CopyFits(SLOT_B, SLOT_A, job.size)
    requires CopyAchieves(crc, mem, p, SLOT_B, SLOT_A, job.size)
    ensures Staged(RunWrites(crc, mem, p.writes), job)
  {
    hide RunWrites, Copied, Written;
    WrittenSlice(mem, RunWrites(crc, mem, p.writes), SLOT_A_OFFSET, job.size, SLOT_B_OFFSET, SLOT_B_OFFSET + SLOT_B_SIZE);
  }

  lemma CountApplies(cfg: Config, mem: Image, job: Job, m: Metadata)
    requires Under(job, m) && m.ext.copyTxnState != TXN_DONE && m.core.bootAttempts < MAX_BOOT_ATTEMPTS
    requires Staged(mem, job) && ValidStage(cfg.crc, mem, job)
    ensures Applies(job, CountAndCopy(cfg, mem, m))
  {
    hide ValidateSlotAt, RunWrites, Staged, Installed, VerifyAndApply, CopySlotPlan, SaysApplied, IncrementBootAttempts,
      SlotsKept, Keeps;
    var counted := Stored(IncrementBootAttempts(cfg.crc, m), m);
    CountedUnder(cfg.crc, job, m);
    CountStep(cfg.crc, m);
    var mem1 := RunWrites(cfg.crc, mem, counted.writes);
    CountKeepsSlots(cfg.crc, mem, m);
    SlotsKeptParts(mem, mem1, job);
    StagedValidatesAlike(cfg.crc, mem, mem1, job);
    CopyApplies(cfg, mem1, job, counted.metadata);
    KeepsFields(job, m, counted.metadata);
  }

  lemma KeepsFields(job: Job, a: Metadata, b: Metadata)
    requires Keeps(job, a) && Keeps(job, b)
    ensures a.core.slotBSize == b.core.slotBSize == job.size && a.core.slotBCrc32 == b.core.slotBCrc32 == job.imageCrc
  {
  }

  lemma CountStep(crc: Crc, m: Metadata)
    requires m.core.bootAttempts < MAX_BOOT_ATTEMPTS
    ensures var p := Stored(IncrementBootAttempts(crc, m), m);
            p.metadata.core.bootAttempts == m.core.bootAttempts + 1 && p.metadata.ext.copyTxnState == m.ext.copyTxnState
  {
  }

  // ----- one uninterrupted boot -----

  /** A boot can still finish the job: it is done and only needs recording, or an attempt is left. */
  ghost predicate CanFinish(m: Metadata) { SaysDone(m) || m.core.bootAttempts < MAX_BOOT_ATTEMPTS }

  /** A crash after the transaction was recorded as done resumes without copying again. */
  lemma DoneResumes(cfg: Config, mem: Image, job: Job, m: Metadata)
    requires Keeps(job, m) && SaysDone(m) && Installed(mem, job) && Staged(mem, job) && ValidStage(cfg.crc, mem, job)
    ensures ApplyPending(cfg, mem, m) == Stored(ApplyCopyToActiveDone(cfg.crc, m, SLOT_B, SLOT_A), m)
    ensures Applies(job, ApplyPending(cfg, mem, m))
  {
    hide StoreCopyTransaction, ValidateSlotAt, Installed, Staged, ApplyCopyToActiveDone, StoreCopyFailure, CountAndCopy, SaysApplied, Tail;
    InstalledValidatesIff(cfg.crc, mem, mem, job);
    ValidFits(cfg.crc, mem, job);
    SwitchIsTail(cfg.crc, job, m);
  }

  /** With an attempt left the transaction is started, the attempt counted, and the image copied. */
  lemma AttemptIsCount(cfg: Config, mem: Image, job: Job, m: Metadata)
    requires Keeps(job, m) && !SaysDone(m) && m.core.bootAttempts < MAX_BOOT_ATTEMPTS && job.size != 0
    requires StoreCopyTransaction(cfg.crc, m, TXN_STARTED, 0, RESULT_NONE).ok
    ensures var started := StoreCopyTransaction(cfg.crc, m, TXN_STARTED, 0, RESULT_NONE);
            ApplyPending(cfg, mem, m)
            == After(started.writes, CountAndCopy(cfg, RunWrites(cfg.crc, mem, started.writes), started.metadata))
  {
    hide StoreCopyTransaction, ValidateSlotAt, ApplyCopyToActiveDone, CountAndCopy, RunWrites;
  }

  lemma AttemptApplies(cfg: Config, mem: Image, job: Job, m: Metadata)
    requires Keeps(job, m) && !SaysDone(m) && m.core.bootAttempts < MAX_BOOT_ATTEMPTS
    requires Staged(mem, job) && ValidStage(cfg.crc, mem, job)
    ensures Applies(job, ApplyPending(cfg, mem, m))
  {
    hide StoreCopyTransaction, ValidateSlotAt, Installed, Staged, ApplyCopyToActiveDone, StoreCopyFailure, CountAndCopy, SaysApplied,
      RunWrites, SlotsKept, Follows, Under;
    ValidFits(cfg.crc, mem, job);
    StartedUnder(cfg.crc, job, m);
    TransactionFollows(cfg.crc, m, TXN_STARTED, 0, RESULT_NONE);
    var started := StoreCopyTransaction(cfg.crc, m, TXN_STARTED, 0, RESULT_NONE);
    var mem1 := RunWrites(cfg.crc, mem, started.writes);
    TransactionKeepsSlots(cfg.crc, mem, m, TXN_STARTED, 0, RESULT_NONE);
    SlotsKeptParts(mem, mem1, job);
    StagedValidatesAlike(cfg.crc, mem, mem1, job);
    CountApplies(cfg, mem1, job, started.metadata);
  }

  lemma ExhaustedKeeps(cfg: Config, mem: Image, job: Job, m: Metadata)
    requires Keeps(job, m) && !CanFinish(m)
    ensures Keeps(job, ApplyPending(cfg, mem, m).metadata)
  {
    hide StoreCopyFailure, Body;
    FailureCarries(cfg.crc, job, m, 0, RESULT_MAX_ATTEMPTS, m.ext.copyWritten, false);
  }

  lemma PendingBootApplies(cfg: Config, mem: Image, job: Job, e: nat)
    requires Pending(cfg, mem, job, e) && ValidStage(cfg.crc, mem, job)
    ensures SaysApplied(job, ApplyPending(cfg, mem, Load(cfg, mem)).metadata) <==> CanFinish(Load(cfg, mem))
  {
    hide LogInv, Load, ApplyPending, Installed, Staged, ValidStage, SaysDone;
    var m := Load(cfg, mem);
    if SaysDone(m) {
      DoneResumes(cfg, mem, job, m);
    } else if m.core.bootAttempts < MAX_BOOT_ATTEMPTS {
      AttemptApplies(cfg, mem, job, m);
    } else {
      ExhaustedKeeps(cfg, mem, job, m);
    }
  }

  /** A valid staged image is installed and entered by the next uninterrupted boot exactly when its transaction is
      done or an attempt is left. */
  lemma UninterruptedBootAppliesIff(cfg: Config, mem: Image, job: Job, e: nat)
    requires Pending(cfg, mem, job, e) && ValidStage(cfg.crc, mem, job)
    requires Recordable(cfg.crc, Load(cfg, mem), BootOf(cfg, mem).writes)
    ensures var after := RunWrites(cfg.crc, mem, BootOf(cfg, mem).writes);
            && (Applied(cfg, after, job) <==> CanFinish(Load(cfg, mem)))
            && (CanFinish(Load(cfg, mem)) ==> BootOf(cfg, mem).target == Enter(SLOT_A_OFFSET))
  {
    hide LogInv, Load, ApplyPending, Installed, Staged, ValidStage, SaysDone, BootOf, Safe, RunWrites, Fallback, Recordable;
    var m := Load(cfg, mem);
    var p := ApplyPending(cfg, mem, m);
    PendingBoot(cfg, mem, job, e);
    PendingBootApplies(cfg, mem, job, e);
    SafeDone(cfg, mem, job, e, p);
    var after := RunWrites(cfg.crc, mem, p.writes);
    if CanFinish(m) {
      assert Applied(cfg, after, job);
      AppliedIsEntered(cfg, mem, after, job);
    }
  }

  lemma AppliedIsEntered(cfg: Config, mem: Image, after: Image, job: Job)
    requires Applied(cfg, after, job) && Staged(mem, job) && ValidStage(cfg.crc, mem, job)
    ensures Fallback(cfg.crc, after, Load(cfg, after)) == Enter(SLOT_A_OFFSET)
  {
    hide LogInv, Load, Staged, Installed, ValidateSlotAt;
    ValidFits(cfg.crc, mem, job);
    StagedValidatesAlike(cfg.crc, mem, after, job);
    InstalledValidatesIff(cfg.crc, after, after, job);
  }

  /** After any power cycles, one uninterrupted boot with an attempt left ends in the new image. */
  lemma CrashesThenBoot(cfg: Config, mem: Image, job: Job, cycles: seq<Cycle>)
    requires Pending(cfg, mem, job, 0) && ValidStage(cfg.crc, mem, job) && IsBootRun(cfg, mem, cycles)
    requires var last := Final(mem, cycles);
             Recordable(cfg.crc, Load(cfg, last), BootOf(cfg, last).writes)
             && (Applied(cfg, last, job) || CanFinish(Load(cfg, last)))
    ensures var last := Final(mem, cycles);
            && BootOf(cfg, last).target == Enter(SLOT_A_OFFSET)
            && Applied(cfg, RunWrites(cfg.crc, last, BootOf(cfg, last).writes), job)
  {
    hide Load, BootOf, RunWrites, IsBootRun, Recordable, CanFinish, ValidStage, Pending, Applied, Staged;
    var last, e := Final(mem, cycles), Erasures(cycles);
    PendingIsInJob(cfg, mem, job, 0);
    BootsKeepTheJob(cfg, mem, job, 0, cycles);
    KeptStage(cfg, mem, job, 0);
    KeptStage(cfg, last, job, e);
    StagedValidatesAlike(cfg.crc, mem, last, job);
    if Applied(cfg, last, job) {
      AppliedBoot(cfg, last, job);
      AppliedStays(cfg, last, job);
    } else {
      UninterruptedBootAppliesIff(cfg, last, job, e);
    }
  }

  lemma KeptStage(cfg: Config, mem: Image, job: Job, e: nat)
    requires InJob(cfg, mem, job, e)
    ensures Staged(mem, job)
  {
    hide LogInv, Load, Staged, Installed;
  }

  lemma AppliedStays(cfg: Config, mem: Image, job: Job)
    requires Applied(cfg, mem, job) && ValidStage(cfg.crc, mem, job)
    ensures RunWrites(cfg.crc, mem, BootOf(cfg, mem).writes) == mem
    ensures BootOf(cfg, mem).target == Enter(SLOT_A_OFFSET)
  {
    hide LogInv, Load, Staged, Installed, ValidateSlotAt, BootOf, RunWrites;
    RunOne(cfg.crc, mem, Put(Load(cfg, mem)));
    ValidFits(cfg.crc, mem, job);
    AppliedBoot(cfg, mem, job);
    InstalledValidatesIff(cfg.crc, mem, mem, job);
  }

  // ----- when nothing is to be installed -----

  /** Only records are written. */
  ghost predicate OnlyRecords(ws: seq<Write>) { forall i :: 0 <= i < |ws| ==> ws[i].Put? }

  lemma {:induction false} RecordsKeepSlots(crc: Crc, mem: Image, ws: seq<Write>)
    requires OnlyRecords(ws)
    ensures SlotsKept(mem, RunWrites(crc, mem, ws))
    decreases |ws|
  {
    hide RunWrites, StoreOps, Apply;
    if ws == [] {
      RunOne(crc, mem, Raw(Erase(0, 0)));
    } else {
      var mem1 := RunWrites(crc, mem, [ws[0]]);
      RunOne(crc, mem, ws[0]);
      PutFramed(crc, mem, ws[0].record);
      RecordsKeepSlots(crc, mem1, ws[1..]);
      RunConcat(crc, mem, [ws[0]], ws[1..]);
      assert [ws[0]] + ws[1..] == ws;
    }
  }

  /** The plan stores records only, keeps the job, and ends by reporting `result` for the staged image. */
  ghost predicate ReportsOnly(job: Job, p: Plan, result: u32) {
    && OnlyRecords(p.writes) && !p.ok && Keeps(job, p.metadata)
    && p.metadata.core.lastBootResult == result && p.metadata.core.lastBootSourceSlot == SLOT_B
    && p.metadata.core.lastBootSize == job.size && p.metadata.core.lastBootCrc32 == job.imageCrc
  }

  lemma FailureReports(crc: Crc, job: Job, m: Metadata, result: u32, written: u32)
    requires Keeps(job, m)
    ensures ReportsOnly(job, StoreCopyFailure(crc, m, result, written).(ok := false), result)
  {
    hide StoreCopyTransaction;
    var failed := StoreCopyTransaction(crc, m, TXN_FAILED, written, result);
    TransactionFollows(crc, m, TXN_FAILED, written, result);
    StoredWrites(crc, m, TXN_FAILED, written, result);
    ResultReports(crc, job, failed.metadata, result);
  }

  lemma ResultReports(crc: Crc, job: Job, m: Metadata, result: u32)
    requires Keeps(job, m)
    ensures ReportsOnly(job, StoreResult(crc, m, result, SLOT_B, false).(ok := false), result)
    ensures |StoreResult(crc, m, result, SLOT_B, false).writes| == 1
  {
  }

  /** With its attempts used up a job is only reported, boot after boot. */
  lemma ExhaustedIsReported(cfg: Config, mem: Image, job: Job, m: Metadata)
    requires Keeps(job, m) && !CanFinish(m)
    ensures ReportsOnly(job, ApplyPending(cfg, mem, m), RESULT_MAX_ATTEMPTS)
  {
    hide StoreCopyFailure, ReportsOnly, StoreCopyTransaction, CountAndCopy, ValidateSlotAt, CopyTransactionMatches;
    FailureReports(cfg.crc, job, m, RESULT_MAX_ATTEMPTS, m.ext.copyWritten);
  }

  lemma ReportsAfter(job: Job, ws: seq<Write>, p: Plan, result: u32)
    requires OnlyRecords(ws) && ReportsOnly(job, p, result)
    ensures ReportsOnly(job, After(ws, p), result)
  {
    hide Keeps;
  }

  lemma InvalidCountReports(cfg: Config, mem: Image, job: Job, m: Metadata)
    requires Keeps(job, m) && m.core.bootAttempts < MAX_BOOT_ATTEMPTS && Staged(mem, job) && !ValidStage(cfg.crc, mem, job)
    ensures ReportsOnly(job, CountAndCopy(cfg, mem, m), RESULT_STAGE_VALIDATE_FAILED)
  {
    hide ValidateSlotAt, RunWrites, Staged, CopySlotPlan, VerifyAndApply, StoreCopyFailure, SlotsKept, ReportsOnly, After, Body;
    var counted := Stored(IncrementBootAttempts(cfg.crc, m), m);
    CountCarries(cfg.crc, job, m, 0);
    CountKeepsSlots(cfg.crc, mem, m);
    hide IncrementBootAttempts;
    var mem1 := RunWrites(cfg.crc, mem, counted.writes);
    SlotsKeptParts(mem, mem1, job);
    StagedValidatesAlike(cfg.crc, mem, mem1, job);
    FailureReports(cfg.crc, job, counted.metadata, RESULT_STAGE_VALIDATE_FAILED, 0);
    CountedIsRecord(cfg.crc, m);
    ReportsAfter(job, counted.writes, StoreCopyFailure(cfg.crc, counted.metadata, RESULT_STAGE_VALIDATE_FAILED, 0).(ok := false),
                 RESULT_STAGE_VALIDATE_FAILED);
  }

  lemma CountedIsRecord(crc: Crc, m: Metadata)
    ensures OnlyRecords(Stored(IncrementBootAttempts(crc, m), m).writes)
  {
  }

  /** A staged image that does not validate is never installed: with attempts left it is reported, and slot A is not touched. */
  lemma InvalidStageIsReported(cfg: Config, mem: Image, job: Job, m: Metadata)
    requires Keeps(job, m) && job.size != 0 && m.core.bootAttempts < MAX_BOOT_ATTEMPTS && Staged(mem, job)
    requires !ValidStage(cfg.crc, mem, job) && (SaysDone(m) ==> Installed(mem, job))
    ensures ReportsOnly(job, ApplyPending(cfg, mem, m), RESULT_STAGE_VALIDATE_FAILED)
  {
    hide ValidateSlotAt, RunWrites, Staged, Installed, CountAndCopy, StoreCopyTransaction, SlotsKept, ReportsOnly, After, StoreCopyFailure,
      Follows;
    if SaysDone(m) { InstalledValidatesIff(cfg.crc, mem, mem, job); }
    StartedUnder(cfg.crc, job, m);
    TransactionFollows(cfg.crc, m, TXN_STARTED, 0, RESULT_NONE);
    var started := StoreCopyTransaction(cfg.crc, m, TXN_STARTED, 0, RESULT_NONE);
    var mem1 := RunWrites(cfg.crc, mem, started.writes);
    TransactionKeepsSlots(cfg.crc, mem, m, TXN_STARTED, 0, RESULT_NONE);
    SlotsKeptParts(mem, mem1, job);
    StagedValidatesAlike(cfg.crc, mem, mem1, job);
    InvalidCountReports(cfg, mem1, job, started.metadata);
    ReportsAfter(job, started.writes, CountAndCopy(cfg, mem1, started.metadata), RESULT_STAGE_VALIDATE_FAILED);
  }

  /** Both slots survive a boot that has nothing valid to install or no attempt left to do it. */
  lemma NothingInstalledNothingTouched(cfg: Config, mem: Image, job: Job, e: nat)
    requires Pending(cfg, mem, job, e) && job.size != 0
    requires !CanFinish(Load(cfg, mem)) || (Load(cfg, mem).core.bootAttempts < MAX_BOOT_ATTEMPTS && !ValidStage(cfg.crc, mem, job))
    ensures SlotsKept(mem, RunWrites(cfg.crc, mem, BootOf(cfg, mem).writes))
  {
    hide LogInv, Load, ApplyPending, Staged, Installed, ValidStage, SaysDone, BootOf, Safe, RunWrites, Fallback, SlotsKept, Keeps;
    PendingBoot(cfg, mem, job, e);
    if !CanFinish(Load(cfg, mem)) {
      ExhaustedIsReported(cfg, mem, job, Load(cfg, mem));
    } else {
      InvalidStageIsReported(cfg, mem, job, Load(cfg, mem));
    }
    RecordsKeepSlots(cfg.crc, mem, ApplyPending(cfg, mem, Load(cfg, mem)).writes);
  }
}
