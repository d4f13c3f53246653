/** The boot engine: metadata in memory, flash written step by step. */
module Bootloader {
  import opened Outcomes
  import opened Bytes
  import opened Flash
  import opened Metadata
  import opened Partition
  import opened MetadataLog
  import opened BootPlan
  import opened SlotCopy

  class Engine {
    const cfg: Config
    const dev: Device
    var metadata: Metadata

    constructor (cfg: Config, dev: Device)
      requires dev.Valid()
      ensures this.cfg == cfg && this.dev == dev && metadata == Load(cfg, dev.Cells())
    {
      this.cfg := cfg;
      this.dev := dev;
      var loaded, m := LoadMetadata(cfg, dev);
      metadata := m;
    }

    /** Core 1 is not running yet, so the flash driver grants every write. */
    ghost predicate Valid()
      reads dev
    {
      dev.Valid() && !dev.core1Online
    }

    /** Since the device held `mem` and its log was `log`, exactly this plan has been carried out. */
    ghost predicate Carried(mem: Image, log: seq<FlashOp>, p: Plan)
      reads this, dev, dev.mem
      requires dev.Valid()
    {
      && dev.log == log + ExpandAll(cfg.crc, p.writes)
      && dev.Cells() == RunWrites(cfg.crc, mem, p.writes)
      && metadata == p.metadata
    }

    /** The ghost record of where a method starts. */
    lemma Joined(mem: Image, log: seq<FlashOp>, first: seq<Write>, mem1: Image, log1: seq<FlashOp>, p: Plan)
      requires Valid()
      requires log1 == log + ExpandAll(cfg.crc, first) && mem1 == RunWrites(cfg.crc, mem, first)
      requires Carried(mem1, log1, p)
      ensures Carried(mem, log, After(first, p))
    {
      hide RunWrites;
      ExpandConcat(cfg.crc, first, p.writes);
      RunConcat(cfg.crc, mem, first, p.writes);
      assert log + ExpandAll(cfg.crc, first) + ExpandAll(cfg.crc, p.writes)
          == log + (ExpandAll(cfg.crc, first) + ExpandAll(cfg.crc, p.writes));
    }

    /** Take over a changed record and store it; a rejected change stores nothing. */
    method ChangeAndStore(changed: Option<Metadata>) returns (ok: bool)
      requires Valid()
      modifies this`metadata, dev`log, dev.mem
      ensures Valid() && ok == changed.Some?
      ensures Carried(old(dev.Cells()), old(dev.log), Stored(changed, old(metadata)))
    {
      hide RunWrites, StoreOps, Apply;
      if changed.None? {
        RunOne(cfg.crc, dev.Cells(), Put(metadata));
        assert dev.log + [] == dev.log;
        return false;
      }
      RunOne(cfg.crc, dev.Cells(), Put(changed.value));
      metadata := changed.value;
      ok := StoreMetadata(cfg, dev, metadata);
    }

    method StoreCopyTransaction(state: u32, written: u32, lastError: u32) returns (ok: bool)
      requires Valid()
      modifies this`metadata, dev`log, dev.mem
      ensures Valid() && ok == BootPlan.StoreCopyTransaction(cfg.crc, old(metadata), state, written, lastError).ok
      ensures Carried(old(dev.Cells()), old(dev.log),
                      BootPlan.StoreCopyTransaction(cfg.crc, old(metadata), state, written, lastError))
    {
      if state == TXN_STARTED {
        ok := ChangeAndStore(BeginCopy(cfg.crc, metadata, SLOT_B, SLOT_A, metadata.core.slotBSize, metadata.core.slotBCrc32));
      } else {
        ok := ChangeAndStore(UpdateCopy(cfg.crc, metadata, state, written, lastError));
      }
    }

    method StoreResult(result: u32, source: u32, clearPending: bool) returns (ok: bool)
      requires Valid()
      modifies this`metadata, dev`log, dev.mem
      ensures Valid() && ok == BootPlan.StoreResult(cfg.crc, old(metadata), result, source, clearPending).ok
      ensures Carried(old(dev.Cells()), old(dev.log), BootPlan.StoreResult(cfg.crc, old(metadata), result, source, clearPending))
    {
      ok := ChangeAndStore(RecordBootResult(cfg.crc, metadata, result, source, clearPending));
    }

    method StoreCopyFailure(result: u32, written: u32) returns (ok: bool)
      requires Valid()
      modifies this`metadata, dev`log, dev.mem
      ensures Valid() && ok == BootPlan.StoreCopyFailure(cfg.crc, old(metadata), result, written).ok
      ensures Carried(old(dev.Cells()), old(dev.log), BootPlan.StoreCopyFailure(cfg.crc, old(metadata), result, written))
    {
      hide RunWrites, ExpandAll;
      ghost var mem, log, m := dev.Cells(), dev.log, metadata;
      var failed := StoreCopyTransaction(TXN_FAILED, written, result);
      ghost var mem1, log1 := dev.Cells(), dev.log;
      ok := StoreResult(result, SLOT_B, false);
      Joined(mem, log, BootPlan.StoreCopyTransaction(cfg.crc, m, TXN_FAILED, written, result).writes, mem1, log1,
             BootPlan.StoreResult(cfg.crc, BootPlan.StoreCopyTransaction(cfg.crc, m, TXN_FAILED, written, result).metadata,
                                  result, SLOT_B, false));
    }

    /** Program the page that is next in the copy. */
    method ProgramPage(srcOffset: nat, dstOffset: nat, imageSize: nat, copied: nat, ghost img: seq<byte>) returns (chunk: nat, ok: bool)
      requires Valid() && Room(dstOffset, imageSize) && imageSize == |img| && copied < imageSize
      requires srcOffset + SLOT_A_SIZE <= METADATA_OFFSET && dstOffset % SECTOR_SIZE == 0
      requires dev.Cells()[srcOffset..srcOffset + imageSize] == img
      requires Progress(dev.Cells(), img, dstOffset, copied)
      modifies dev`log, dev.mem
      ensures Valid() && ok && chunk == Chunk(img, copied)
      ensures var w := Raw(Program(dstOffset + copied, PageAt(img, copied)));
              && dev.log == old(dev.log) + ExpandAll(cfg.crc, [w])
              && dev.Cells() == RunWrites(cfg.crc, old(dev.Cells()), [w])
      ensures Progress(dev.Cells(), img, dstOffset, copied + chunk)
      ensures Written(old(dev.Cells()), dev.Cells(), dstOffset, imageSize)
    {
      hide RunWrites, ExpandAll, Apply, ApplyOp, PageAt, Progress, Splice, Written, VectorOk;
      ghost var mem := dev.Cells();
      chunk := if imageSize - copied > PAGE_SIZE then PAGE_SIZE else imageSize - copied;
      var page := dev.mem[srcOffset + copied..srcOffset + copied + chunk] + Fill(255, PAGE_SIZE - chunk);
      PageRead(mem, srcOffset, img, copied);
      PageProgrammed(cfg.crc, mem, img, dstOffset, copied);
      ok := dev.Program(dstOffset + copied, page);
    }

    /** Store the transaction state in the middle of a copy. */
    method StoreWhileCopying(state: u32, written: u32, ghost img: seq<byte>, ghost dst: nat, ghost copied: nat) returns (ok: bool)
      requires Valid() && Room(dst, |img|) && copied <= |img| && Progress(dev.Cells(), img, dst, copied)
      modifies this`metadata, dev`log, dev.mem
      ensures Valid()
      ensures var p := BootPlan.StoreCopyTransaction(cfg.crc, old(metadata), state, written, RESULT_NONE);
              ok == p.ok && Carried(old(dev.Cells()), old(dev.log), p) && (!ok ==> p.writes == [] && metadata == old(metadata))
      ensures Progress(dev.Cells(), img, dst, copied) && Written(old(dev.Cells()), dev.Cells(), dst, |img|)
    {
      hide RunWrites, ExpandAll, EraseSize, Progress, Framed, BootPlan.StoreCopyTransaction;
      ghost var mem, m := dev.Cells(), metadata;
      ok := StoreCopyTransaction(state, written, RESULT_NONE);
      StoredWrites(cfg.crc, m, state, written, RESULT_NONE);
      StoredKeepsProgress(cfg.crc, mem, BootPlan.StoreCopyTransaction(cfg.crc, m, state, written, RESULT_NONE), img, dst, copied);
    }

    /** The copy loop: the image, read from the source slot, is programmed page by page onto erased cells, with a
        progress record every 64 KiB and at the end. */
    method CopyPages(srcOffset: nat, dstOffset: nat, imageSize: nat, ghost img: seq<byte>) returns (ok: bool)
      requires Valid() && Room(dstOffset, imageSize) && imageSize == |img| && dstOffset % SECTOR_SIZE == 0
      requires srcOffset + SLOT_A_SIZE <= METADATA_OFFSET
      requires srcOffset + SLOT_A_SIZE <= dstOffset || dstOffset + SLOT_A_SIZE <= srcOffset
               || (srcOffset == dstOffset && img == Fill(255, imageSize))
      requires dev.Cells()[srcOffset..srcOffset + imageSize] == img
      requires Progress(dev.Cells(), img, dstOffset, 0)
      modifies this`metadata, dev`log, dev.mem
      ensures Valid() && ok == CopyLoop(cfg.crc, old(metadata), img, dstOffset, 0, PROGRESS_STORE_BYTES).ok
      ensures Carried(old(dev.Cells()), old(dev.log), CopyLoop(cfg.crc, old(metadata), img, dstOffset, 0, PROGRESS_STORE_BYTES))
      ensures Written(old(dev.Cells()), dev.Cells(), dstOffset, imageSize)
      ensures ok ==> Progress(dev.Cells(), img, dstOffset, imageSize)
    {
      hide RunWrites, ExpandAll, PageAt, Progress, Written, BootPlan.StoreCopyTransaction, CopyLoop, After, Chunk;
      ghost var mem, log, m := dev.Cells(), dev.log, metadata;
      ghost var all := CopyLoop(cfg.crc, m, img, dstOffset, 0, PROGRESS_STORE_BYTES);
      ghost var ws: seq<Write> := [];
      RunOne(cfg.crc, mem, Put(m));
      WrittenRefl(mem, dstOffset, imageSize);
      AfterNothing(all);
      assert log + [] == log;
      var copied, next := 0, PROGRESS_STORE_BYTES;
      while copied < imageSize
        invariant Valid() && 0 <= copied <= imageSize && next >= 0
        invariant dev.log == log + ExpandAll(cfg.crc, ws) && dev.Cells() == RunWrites(cfg.crc, mem, ws)
        invariant all == After(ws, CopyLoop(cfg.crc, metadata, img, dstOffset, copied, next))
        invariant Progress(dev.Cells(), img, dstOffset, copied) && Written(mem, dev.Cells(), dstOffset, imageSize)
      {
        if srcOffset == dstOffset {
          ErasedOntoItself(dev.Cells(), dstOffset, imageSize, copied);
        } else {
          WrittenSlice(mem, dev.Cells(), dstOffset, imageSize, srcOffset, srcOffset + imageSize);
        }
        ghost var here, hereLog := dev.Cells(), dev.log;
        ghost var w := Raw(Program(dstOffset + copied, PageAt(img, copied)));
        LoopStep(cfg.crc, metadata, img, dstOffset, copied, next, ws);
        var chunk, programmed := ProgramPage(srcOffset, dstOffset, imageSize, copied, img);
        WritesJoin(cfg.crc, mem, log, ws, here, hereLog, [w], dev.Cells(), dev.log);
        WrittenTrans(mem, here, dev.Cells(), dstOffset, imageSize);
        copied := copied + chunk;
        ws := ws + [w];

        if copied >= next || copied >= imageSize {
          here, hereLog := dev.Cells(), dev.log;
          ghost var p := BootPlan.StoreCopyTransaction(cfg.crc, metadata, TXN_PROGRAMMING, copied, RESULT_NONE);
          var stored := StoreWhileCopying(TXN_PROGRAMMING, copied, img, dstOffset, copied);
          WritesJoin(cfg.crc, mem, log, ws, here, hereLog, p.writes, dev.Cells(), dev.log);
          WrittenTrans(mem, here, dev.Cells(), dstOffset, imageSize);
          if !stored {
            assert ws + p.writes == ws;
            return false;
          }
          ws := ws + p.writes;
          next := next + PROGRESS_STORE_BYTES;
        }
      }
      LoopEnd(cfg.crc, metadata, img, dstOffset, next, ws);
      ok := true;
    }

    /** Copies an image between the slots.
        On success the destination holds the image followed by erased cells up to the next sector, and nothing
        outside that span and the two metadata sectors has changed. Only erased cells are left of a slot copied onto
        itself; begin_copy_transaction refuses equal slots beforehand. */
    method CopySlot(source: u32, destination: u32, imageSize: u32) returns (ok: bool)
      requires Valid()
      modifies this`metadata, dev`log, dev.mem
      ensures Valid() && ok == CopySlotPlan(cfg.crc, old(dev.Cells()), old(metadata), source, destination, imageSize).ok
      ensures Carried(old(dev.Cells()), old(dev.log),
                      CopySlotPlan(cfg.crc, old(dev.Cells()), old(metadata), source, destination, imageSize))
      ensures CopyFits(source, destination, imageSize) ==>
                Written(old(dev.Cells()), dev.Cells(), SlotOffset(destination), imageSize)
      ensures ok ==> CopyFits(source, destination, imageSize)
                     && Copied(CopySource(old(dev.Cells()), source, destination, imageSize), dev.Cells(), SlotOffset(destination))
    {
      hide RunWrites, ExpandAll, ApplyOp, EraseSize, Progress, CopyLoop, BootPlan.StoreCopyTransaction, Copied, Written;
      ghost var mem, log, m := dev.Cells(), dev.log, metadata;
      var srcOffset, dstOffset, dstSize := SlotOffset(source), SlotOffset(destination), SlotCapacity(destination);
      if srcOffset == 0 || dstOffset == 0 || imageSize == 0 || imageSize > dstSize {
        RunOne(cfg.crc, mem, Put(m));
        assert log + [] == log;
        return false;
      }
      EraseSizeBounds(imageSize);
      ghost var img := CopySource(mem, source, destination, imageSize);
      var erased := dev.Erase(dstOffset, EraseSize(imageSize));
      if !erased {
        return false;
      }
      ghost var wipe := Raw(Erase(dstOffset, EraseSize(imageSize)));
      RunOne(cfg.crc, mem, wipe);
      RawIsOp(cfg.crc, mem, wipe.op);
      WipeStartsProgress(mem, img, dstOffset);
      ghost var ws := [wipe];
      ghost var here, hereLog := dev.Cells(), dev.log;

      ok := StoreWhileCopying(TXN_ERASED_ACTIVE, 0, img, dstOffset, 0);
      ghost var p1 := BootPlan.StoreCopyTransaction(cfg.crc, m, TXN_ERASED_ACTIVE, 0, RESULT_NONE);
      WritesJoin(cfg.crc, mem, log, ws, here, hereLog, p1.writes, dev.Cells(), dev.log);
      WrittenTrans(mem, here, dev.Cells(), dstOffset, imageSize);
      if !ok {
        assert ws + p1.writes == ws;
        return false;
      }
      ws := ws + p1.writes;
      here, hereLog := dev.Cells(), dev.log;

      ok := StoreWhileCopying(TXN_PROGRAMMING, 0, img, dstOffset, 0);
      ghost var p2 := BootPlan.StoreCopyTransaction(cfg.crc, p1.metadata, TXN_PROGRAMMING, 0, RESULT_NONE);
      WritesJoin(cfg.crc, mem, log, ws, here, hereLog, p2.writes, dev.Cells(), dev.log);
      WrittenTrans(mem, here, dev.Cells(), dstOffset, imageSize);
      if !ok {
        assert ws + p2.writes == ws;
        return false;
      }
      ws := ws + p2.writes;
      here, hereLog := dev.Cells(), dev.log;

      if source == destination {
        ErasedOntoItself(here, dstOffset, imageSize, 0);
      } else {
        WrittenSlice(mem, here, dstOffset, imageSize, srcOffset, srcOffset + imageSize);
      }
      ghost var loop := CopyLoop(cfg.crc, p2.metadata, img, dstOffset, 0, PROGRESS_STORE_BYTES);
      ok := CopyPages(srcOffset, dstOffset, imageSize, img);
      WritesJoin(cfg.crc, mem, log, ws, here, hereLog, loop.writes, dev.Cells(), dev.log);
      WrittenTrans(mem, here, dev.Cells(), dstOffset, imageSize);
      if ok { FinishedCopy(dev.Cells(), img, dstOffset); }
    }

    // ----- copy to active -----

    method VerifyAndApply() returns (ok: bool)
      requires Valid()
      modifies this`metadata, dev`log, dev.mem
      ensures Valid() && ok == BootPlan.VerifyAndApply(cfg, old(dev.Cells()), old(metadata)).ok
      ensures Carried(old(dev.Cells()), old(dev.log), BootPlan.VerifyAndApply(cfg, old(dev.Cells()), old(metadata)))
    {
      hide RunWrites, ExpandAll, BootPlan.StoreCopyTransaction, ValidateSlotAt, BootPlan.StoreCopyFailure;
      ghost var mem, log, m := dev.Cells(), dev.log, metadata;
      var size, imageCrc := metadata.core.slotBSize, metadata.core.slotBCrc32;
      ok := StoreCopyTransaction(TXN_VERIFYING, size, RESULT_NONE);
      ghost var p1 := BootPlan.StoreCopyTransaction(cfg.crc, m, TXN_VERIFYING, size, RESULT_NONE);
      if !ok {
        return false;
      }
      ghost var mem1, log1 := dev.Cells(), dev.log;
      var valid := ValidateSlotAsSlotA(cfg.crc, dev.mem[..], SLOT_A, size, imageCrc);
      if !valid {
        var _ := StoreCopyFailure(RESULT_ACTIVE_VALIDATE_FAILED, size);
        Joined(mem, log, p1.writes, mem1, log1, BootPlan.StoreCopyFailure(cfg.crc, p1.metadata, RESULT_ACTIVE_VALIDATE_FAILED, size));
        return false;
      }
      ok := StoreCopyTransaction(TXN_DONE, size, RESULT_NONE);
      ghost var p2 := BootPlan.StoreCopyTransaction(cfg.crc, p1.metadata, TXN_DONE, size, RESULT_NONE);
      if !ok {
        Joined(mem, log, p1.writes, mem1, log1, p2);
        return false;
      }
      ghost var mem2, log2 := dev.Cells(), dev.log;
      ghost var p3 := Stored(ApplyCopyToActiveDone(cfg.crc, p2.metadata, SLOT_B, SLOT_A), p2.metadata);
      ok := ChangeAndStore(ApplyCopyToActiveDone(cfg.crc, metadata, SLOT_B, SLOT_A));
      Joined(mem1, log1, p2.writes, mem2, log2, p3);
      Joined(mem, log, p1.writes, mem1, log1, After(p2.writes, p3));
    }

    method CountAndCopy() returns (ok: bool)
      requires Valid()
      modifies this`metadata, dev`log, dev.mem
      ensures Valid() && ok == BootPlan.CountAndCopy(cfg, old(dev.Cells()), old(metadata)).ok
      ensures Carried(old(dev.Cells()), old(dev.log), BootPlan.CountAndCopy(cfg, old(dev.Cells()), old(metadata)))
    {
      hide RunWrites, ExpandAll, ValidateSlotAt, BootPlan.StoreCopyFailure, BootPlan.VerifyAndApply, CopySlotPlan, IncrementBootAttempts;
      ghost var mem, log, m := dev.Cells(), dev.log, metadata;
      var size, imageCrc := metadata.core.slotBSize, metadata.core.slotBCrc32;
      // The result of storing the attempt is not looked at.
      var _ := ChangeAndStore(IncrementBootAttempts(cfg.crc, metadata));
      ghost var p1 := Stored(IncrementBootAttempts(cfg.crc, m), m);
      ghost var mem1, log1 := dev.Cells(), dev.log;
      var valid := ValidateSlotAsSlotA(cfg.crc, dev.mem[..], SLOT_B, size, imageCrc);
      if !valid {
        var _ := StoreCopyFailure(RESULT_STAGE_VALIDATE_FAILED, 0);
        Joined(mem, log, p1.writes, mem1, log1, BootPlan.StoreCopyFailure(cfg.crc, p1.metadata, RESULT_STAGE_VALIDATE_FAILED, 0));
        return false;
      }
      ok := CopySlot(SLOT_B, SLOT_A, size);
      ghost var p2 := CopySlotPlan(cfg.crc, mem1, p1.metadata, SLOT_B, SLOT_A, size);
      Joined(mem, log, p1.writes, mem1, log1, p2);
      ghost var mem2, log2 := dev.Cells(), dev.log;
      if !ok {
        var _ := StoreCopyFailure(RESULT_COPY_FAILED, metadata.ext.copyWritten);
        Joined(mem, log, p1.writes + p2.writes, mem2, log2,
               BootPlan.StoreCopyFailure(cfg.crc, p2.metadata, RESULT_COPY_FAILED, p2.metadata.ext.copyWritten));
        return false;
      }
      ok := VerifyAndApply();
      Joined(mem, log, p1.writes + p2.writes, mem2, log2, BootPlan.VerifyAndApply(cfg, mem2, p2.metadata));
    }

    method ApplyPendingImage() returns (ok: bool)
      requires Valid()
      modifies this`metadata, dev`log, dev.mem
      ensures Valid() && ok == ApplyPending(cfg, old(dev.Cells()), old(metadata)).ok
      ensures Carried(old(dev.Cells()), old(dev.log), ApplyPending(cfg, old(dev.Cells()), old(metadata)))
    {
      hide RunWrites, ExpandAll, BootPlan.StoreCopyTransaction, ValidateSlotAt, BootPlan.StoreCopyFailure, BootPlan.CountAndCopy,
        BootPlan.StoreResult, ApplyCopyToActiveDone;
      ghost var mem, log, m := dev.Cells(), dev.log, metadata;
      RunOne(cfg.crc, mem, Put(m));
      if metadata.core.pendingSlot == SLOT_NONE {
        assert log + [] == log;
        return false;
      }
      if metadata.core.pendingSlot != SLOT_B {
        var _ := StoreResult(RESULT_NO_PENDING, metadata.core.pendingSlot, true);
        return false;
      }
      var size, imageCrc := metadata.core.slotBSize, metadata.core.slotBCrc32;
      if metadata.ext.copyTxnState == TXN_DONE && CopyTransactionMatches(metadata)
         && ValidateSlotAsSlotA(cfg.crc, dev.mem[..], SLOT_A, size, imageCrc) {
        ok := ChangeAndStore(ApplyCopyToActiveDone(cfg.crc, metadata, SLOT_B, SLOT_A));
        return;
      }
      if size == 0 || metadata.core.bootAttempts >= MAX_BOOT_ATTEMPTS {
        var _ := StoreCopyFailure(RESULT_MAX_ATTEMPTS, metadata.ext.copyWritten);
        return false;
      }
      ok := StoreCopyTransaction(TXN_STARTED, 0, RESULT_NONE);
      ghost var started := BootPlan.StoreCopyTransaction(cfg.crc, m, TXN_STARTED, 0, RESULT_NONE);
      if !ok {
        return false;
      }
      ghost var mem1, log1 := dev.Cells(), dev.log;
      ok := CountAndCopy();
      Joined(mem, log, started.writes, mem1, log1, BootPlan.CountAndCopy(cfg, mem1, started.metadata));
    }

    // ----- direct A/B -----

    method ApplyDirectAbPendingImage() returns (ok: bool)
      requires Valid()
      modifies this`metadata, dev`log, dev.mem
      ensures Valid() && ok == ApplyDirect(cfg, old(dev.Cells()), old(metadata)).ok
      ensures Carried(old(dev.Cells()), old(dev.log), ApplyDirect(cfg, old(dev.Cells()), old(metadata)))
    {
      hide RunWrites, ExpandAll, ValidateSlotAt, BootPlan.StoreResult, ApplyDirectAbPending;
      RunOne(cfg.crc, dev.Cells(), Put(metadata));
      var pending := metadata.core.pendingSlot;
      if pending == SLOT_NONE {
        assert dev.log + [] == dev.log;
        return false;
      }
      if !SlotValid(pending) || !SlotValid(metadata.core.activeSlot) {
        var _ := StoreResult(RESULT_NO_PENDING, pending, true);
        return false;
      }
      if metadata.core.bootAttempts >= MAX_BOOT_ATTEMPTS {
        var _ := StoreResult(RESULT_MAX_ATTEMPTS, pending, true);
        return false;
      }
      if !ValidateSlotDirect(cfg.crc, dev.mem[..], metadata, pending) {
        var _ := StoreResult(RESULT_STAGE_VALIDATE_FAILED, pending, true);
        return false;
      }
      ok := ChangeAndStore(ApplyDirectAbPending(cfg.crc, metadata, pending));
    }

    method DirectRollback(reason: u32, failed: u32) returns (ok: bool)
      requires Valid()
      modifies this`metadata, dev`log, dev.mem
      ensures Valid() && ok == BootPlan.DirectRollback(cfg, old(dev.Cells()), old(metadata), reason, failed).ok
      ensures Carried(old(dev.Cells()), old(dev.log), BootPlan.DirectRollback(cfg, old(dev.Cells()), old(metadata), reason, failed))
    {
      hide RunWrites, ExpandAll, SelectRollbackSlot, RollbackDirectAb;
      RunOne(cfg.crc, dev.Cells(), Put(metadata));
      var slot := SelectRollbackSlot(cfg.crc, dev.mem[..], metadata);
      if slot == SLOT_NONE {
        assert dev.log + [] == dev.log;
        return false;
      }
      ok := ChangeAndStore(RollbackDirectAb(cfg.crc, metadata, reason, failed, slot));
    }

    method PrepareDirectActiveBoot() returns (ok: bool)
      requires Valid()
      modifies this`metadata, dev`log, dev.mem
      ensures Valid() && ok == PrepareDirectBoot(cfg, old(dev.Cells()), old(metadata)).ok
      ensures Carried(old(dev.Cells()), old(dev.log), PrepareDirectBoot(cfg, old(dev.Cells()), old(metadata)))
    {
      hide RunWrites, ExpandAll, ValidateSlotAt, BootPlan.DirectRollback, IncrementBootAttempts;
      RunOne(cfg.crc, dev.Cells(), Put(metadata));
      assert dev.log + [] == dev.log;
      var active := metadata.core.activeSlot;
      if !SlotValid(active) {
        return false;
      }
      if active == metadata.core.confirmedSlot {
        return true;
      }
      if metadata.core.bootAttempts >= MAX_BOOT_ATTEMPTS {
        ok := DirectRollback(RESULT_MAX_ATTEMPTS, active);
        return;
      }
      if !ValidateSlotDirect(cfg.crc, dev.mem[..], metadata, active) {
        ok := DirectRollback(RESULT_ACTIVE_VALIDATE_FAILED, active);
        return;
      }
      ok := ChangeAndStore(IncrementBootAttempts(cfg.crc, metadata));
    }
  }

  /** One boot, from reset to the jump into an application or the idle loop. */
  method BootOnce(cfg: Config, dev: Device) returns (target: Target)
    requires dev.Valid() && !dev.core1Online
    modifies dev`log, dev.mem
    ensures var boot := BootOf(cfg, old(dev.Cells()));
            && target == boot.target
            && dev.log == old(dev.log) + ExpandAll(cfg.crc, boot.writes)
            && dev.Cells() == RunWrites(cfg.crc, old(dev.Cells()), boot.writes)
  {
    hide RunWrites, ExpandAll, Load, ApplyPending, ApplyDirect, PrepareDirectBoot, DirectSlotBootable, ActiveAppOk;
    ghost var mem, log := dev.Cells(), dev.log;
    var engine := new Engine(cfg, dev);
    ghost var boot := BootOf(cfg, mem);
    var directPendingApplied := false;
    if engine.metadata.ab.bootMode == MODE_DIRECT_AB {
      directPendingApplied := engine.ApplyDirectAbPendingImage();
    } else {
      var _ := engine.ApplyPendingImage();
    }
    ghost var mem1, log1 := dev.Cells(), dev.log;
    ghost var first := FirstPart(cfg, mem);
    RunOne(cfg.crc, mem1, Put(engine.metadata));
    assert first.writes + [] == first.writes;
    if engine.metadata.ab.bootMode == MODE_DIRECT_AB {
      var prepared := directPendingApplied;
      if !directPendingApplied {
        prepared := engine.PrepareDirectActiveBoot();
        WritesJoin(cfg.crc, mem, log, first.writes, mem1, log1, PrepareDirectBoot(cfg, mem1, first.metadata).writes,
                   dev.Cells(), dev.log);
      }
      if prepared && DirectSlotBootable(cfg.crc, dev.mem[..], engine.metadata, engine.metadata.core.activeSlot) {
        return Enter(SlotOffset(engine.metadata.core.activeSlot));
      }
    }
    if ActiveAppOk(cfg.crc, dev.mem[..], engine.metadata) {
      return Enter(SLOT_A_OFFSET);
    }
    return Halt;
  }
}
