/** Direct A/B: what becomes of every slot that is offered, and where a boot goes when the active slot cannot run. */
module DirectOffers {
  import opened Bytes
  import opened Flash
  import opened Metadata
  import opened Partition
  import opened MetadataLog
  import opened MetadataRegister
  import opened BootPlan
  import opened SlotCopy
  import opened PowerLoss
  import opened DirectRuns

  // ----- what stores one record -----

  /** A boot that stores one record and leaves it in the log, the slots as they were. */
  ghost predicate StoresOne(cfg: Config, mem: Image, r: Metadata, target: Target) {
    var boot := BootOf(cfg, mem);
    && boot == Boot([Put(r)], r, target)
    && (Recordable(cfg.crc, Load(cfg, mem), boot.writes) ==>
          var after := RunWrites(cfg.crc, mem, boot.writes);
          Load(cfg, after) == r && LogInv(cfg.crc, after) && SlotsKept(mem, after))
  }

  lemma OneIsStored(cfg: Config, mem: Image, r: Metadata, target: Target)
    requires LogInv(cfg.crc, mem) && Follows(cfg.crc, Load(cfg, mem), r) && BootOf(cfg, mem) == Boot([Put(r)], r, target)
    ensures StoresOne(cfg, mem, r, target)
  {
    hide Load, LogInv, BootOf, RunWrites, Recordable, Storable, Follows, StoreOps, Apply, SlotsKept;
    RunOne(cfg.crc, mem, Put(r));
    LoadIsShaped(cfg, mem);
    if Recordable(cfg.crc, Load(cfg, mem), [Put(r)]) {
      RecordableNext(cfg.crc, Load(cfg, mem), [Put(r)]);
      DurableComplete(cfg, mem, r);
    }
  }

  lemma StoringKeepsSlots(crc: Crc, mem: Image, r: Metadata)
    ensures SlotsKept(mem, RunWrites(crc, mem, [Put(r)]))
  {
    hide RunWrites, StoreOps, Apply;
    RunOne(crc, mem, Put(r));
    PutFramed(crc, mem, r);
  }

  // ----- every slot that is offered -----

  /** Direct mode, the confirmed slot running and bootable, and some slot offered, whatever it holds. */
  ghost predicate Standing(cfg: Config, mem: Image, t: Trial) {
    var m := Load(cfg, mem);
    && LogInv(cfg.crc, mem) && SlotValid(t.slot) && SlotValid(t.confirmed)
    && m.ab.bootMode == MODE_DIRECT_AB && m.core.pendingSlot == t.slot
    && m.core.activeSlot == t.confirmed && m.core.confirmedSlot == t.confirmed
    && DirectSlotBootable(cfg.crc, mem, m, t.confirmed)
  }

  /** An attempt is left and the image in the slot is the one on record. */
  predicate Takes(crc: Crc, mem: Image, m: Metadata, slot: u32) {
    m.core.bootAttempts < MAX_BOOT_ATTEMPTS && ValidateSlotDirect(crc, mem, m, slot)
  }

  /** The offered slot is active from now on, on trial. */
  ghost predicate Taken(t: Trial, m: Metadata, r: Metadata) {
    && Running(t, r, t.slot) && SameImages(m, r) && r.core.bootAttempts == m.core.bootAttempts + 1
    && r.core.lastBootResult == RESULT_APPLIED && r.core.lastBootSourceSlot == t.slot
    && r.core.lastBootSize == SlotSize(m, t.slot) && r.core.lastBootCrc32 == SlotCrc32(m, t.slot)
    && r.ab.previousSlot == t.confirmed && r.ab.bootGeneration == Inc(m.ab.bootGeneration)
    && r.core.rollbackCount == m.core.rollbackCount
  }

  /** The offer is withdrawn, with the reason, the slot and its image on record and one more rollback; the confirmed slot stays. */
  ghost predicate Refused(t: Trial, m: Metadata, r: Metadata, reason: u32) {
    && Running(t, r, t.confirmed) && SameImages(m, r) && r.core.bootAttempts == 0
    && r.core.lastBootResult == reason && r.core.lastBootSourceSlot == t.slot
    && r.core.lastBootSize == SlotSize(m, t.slot) && r.core.lastBootCrc32 == SlotCrc32(m, t.slot)
    && r.core.rollbackCount == Inc(m.core.rollbackCount)
    && r.ab.(metadataAbCrc32 := 0) == m.ab.(metadataAbCrc32 := 0) && r.ext.(metadataExtCrc32 := 0) == m.ext.(metadataExtCrc32 := 0)
  }

  function Reason(m: Metadata): u32 {
    if m.core.bootAttempts >= MAX_BOOT_ATTEMPTS then RESULT_MAX_ATTEMPTS else RESULT_STAGE_VALIDATE_FAILED
  }

  lemma TakenPlan(cfg: Config, mem: Image, t: Trial)
    requires Standing(cfg, mem, t) && Takes(cfg.crc, mem, Load(cfg, mem), t.slot)
    ensures var m, p := Load(cfg, mem), FirstPart(cfg, mem);
            p.ok && p.writes == [Put(p.metadata)] && Taken(t, m, p.metadata) && Follows(cfg.crc, m, p.metadata)
  {
    hide Load, LogInv, ValidateSlotAt, AppVectorOk;
    var m := Load(cfg, mem);
    CommittedFollows(cfg.crc, m, m.(
      core := m.core.(activeSlot := t.slot, pendingSlot := SLOT_NONE, bootAttempts := Inc(m.core.bootAttempts),
                      lastBootResult := RESULT_APPLIED, lastBootSourceSlot := t.slot, lastBootSize := SlotSize(m, t.slot),
                      lastBootCrc32 := SlotCrc32(m, t.slot)),
      ab := m.ab.(previousSlot := t.confirmed, bootGeneration := Inc(m.ab.bootGeneration))));
  }

  lemma RefusedPlan(cfg: Config, mem: Image, t: Trial)
    requires Standing(cfg, mem, t) && !Takes(cfg.crc, mem, Load(cfg, mem), t.slot)
    ensures var m, p := Load(cfg, mem), FirstPart(cfg, mem);
            !p.ok && p.writes == [Put(p.metadata)] && Refused(t, m, p.metadata, Reason(m)) && Follows(cfg.crc, m, p.metadata)
  {
    hide Load, LogInv, ValidateSlotAt, AppVectorOk;
    var m := Load(cfg, mem);
    RefusalFollows(cfg.crc, m, Reason(m), t.slot);
  }

  lemma RefusalFollows(crc: Crc, m: Metadata, reason: u32, slot: u32)
    requires SlotValid(slot)
    ensures var p := StoreResult(crc, m, reason, slot, true); p.writes == [Put(p.metadata)] && Follows(crc, m, p.metadata)
  {
    var c := m.core.(lastBootResult := reason, lastBootSourceSlot := slot, lastBootSize := SlotSize(m, slot), lastBootCrc32 := SlotCrc32(m, slot),
                     pendingSlot := SLOT_NONE, bootAttempts := 0);
    CommittedFollows(crc, m, m.(core := if reason != RESULT_APPLIED && reason != RESULT_NO_PENDING
                                        then c.(rollbackCount := Inc(c.rollbackCount)) else c));
  }

  lemma TakenBoot(cfg: Config, mem: Image, t: Trial)
    requires Standing(cfg, mem, t) && Takes(cfg.crc, mem, Load(cfg, mem), t.slot)
    ensures var r := FirstPart(cfg, mem).metadata; BootOf(cfg, mem) == Boot([Put(r)], r, Enter(SlotOffset(t.slot)))
  {
    hide Load, LogInv, ValidateSlotAt, RunWrites, FirstPart, DirectSlotBootable, Fallback, Follows, SlotsKept, PrepareDirectBoot;
    var m, r := Load(cfg, mem), FirstPart(cfg, mem).metadata;
    TakenPlan(cfg, mem, t);
    assert [Put(r)] + [] == [Put(r)];
    StoringKeepsSlots(cfg.crc, mem, r);
    ValidationKept(cfg.crc, mem, RunWrites(cfg.crc, mem, [Put(r)]), m, r, t.slot);
    DirectIsBootable(cfg.crc, mem, m, t.slot);
  }

  lemma RefusedBoot(cfg: Config, mem: Image, t: Trial)
    requires Standing(cfg, mem, t) && !Takes(cfg.crc, mem, Load(cfg, mem), t.slot)
    ensures var r := FirstPart(cfg, mem).metadata; BootOf(cfg, mem) == Boot([Put(r)], r, Enter(SlotOffset(t.confirmed)))
  {
    hide Load, LogInv, ValidateSlotAt, RunWrites, FirstPart, DirectSlotBootable, Fallback, Follows, SlotsKept, Takes;
    var m, r := Load(cfg, mem), FirstPart(cfg, mem).metadata;
    RefusedPlan(cfg, mem, t);
    assert [Put(r)] + [] == [Put(r)];
    StoringKeepsSlots(cfg.crc, mem, r);
    ValidationKept(cfg.crc, mem, RunWrites(cfg.crc, mem, [Put(r)]), m, r, t.confirmed);
  }

  /** The slot that is offered is entered, if it is not the confirmed one anyway, if and only if it validates and an attempt is left:
      then it is on trial. Otherwise the
      confirmed slot is entered, and the next load tells that it stays, that nothing is pending any more, which image of which slot
      was refused and why, and of one more rollback. */
  lemma OfferIsTakenIff(cfg: Config, mem: Image, t: Trial)
    requires Standing(cfg, mem, t) && Recordable(cfg.crc, Load(cfg, mem), BootOf(cfg, mem).writes)
    ensures var m := Load(cfg, mem);
            var after := RunWrites(cfg.crc, mem, BootOf(cfg, mem).writes);
            && (t.slot != t.confirmed ==> (BootOf(cfg, mem).target == Enter(SlotOffset(t.slot)) <==> Takes(cfg.crc, mem, m, t.slot)))
            && (Takes(cfg.crc, mem, m, t.slot) ==>
                  && BootOf(cfg, mem).target == Enter(SlotOffset(t.slot)) && Taken(t, m, Load(cfg, after))
                  && (t.slot != t.confirmed ==> OnTrial(cfg, after, t, MAX_BOOT_ATTEMPTS - m.core.bootAttempts - 1)))
            && (!Takes(cfg.crc, mem, m, t.slot) ==>
                  BootOf(cfg, mem).target == Enter(SlotOffset(t.confirmed))
                  && Refused(t, m, Load(cfg, after), Reason(m)) && Settled(cfg, after, t))
  {
    hide Load, LogInv, RunWrites, Recordable, BootOf, FirstPart, DirectSlotBootable, Follows, SlotsKept, Takes;
    var m, r := Load(cfg, mem), FirstPart(cfg, mem).metadata;
    var after := RunWrites(cfg.crc, mem, BootOf(cfg, mem).writes);
    if Takes(cfg.crc, mem, m, t.slot) {
      TakenBoot(cfg, mem, t);
      TakenPlan(cfg, mem, t);
      OneIsStored(cfg, mem, r, Enter(SlotOffset(t.slot)));
      ValidationKept(cfg.crc, mem, after, m, r, t.confirmed);
      BudgetOf(cfg.crc, mem, after, m, r, t.slot);
    } else {
      RefusedBoot(cfg, mem, t);
      RefusedPlan(cfg, mem, t);
      OneIsStored(cfg, mem, r, Enter(SlotOffset(t.confirmed)));
      ValidationKept(cfg.crc, mem, after, m, r, t.confirmed);
    }
  }

  lemma BudgetOf(crc: Crc, mem: Image, after: Image, m: Metadata, r: Metadata, slot: u32)
    requires Takes(crc, mem, m, slot) && r.core.bootAttempts == m.core.bootAttempts + 1
    ensures Budget(crc, after, r) <= MAX_BOOT_ATTEMPTS - m.core.bootAttempts - 1
  {
    hide ValidateSlotAt;
  }

  /** An offer of a slot there is not is never taken, nor even recorded as refused: nothing is written, and the confirmed slot runs. */
  lemma UnknownOfferIsIgnored(cfg: Config, mem: Image, t: Trial)
    requires var m := Load(cfg, mem);
             && m.ab.bootMode == MODE_DIRECT_AB && !SlotOrNoneValid(m.core.pendingSlot)
             && SlotValid(t.confirmed) && m.core.activeSlot == t.confirmed && m.core.confirmedSlot == t.confirmed
             && DirectSlotBootable(cfg.crc, mem, m, t.confirmed)
    ensures BootOf(cfg, mem) == Boot([], Load(cfg, mem), Enter(SlotOffset(t.confirmed)))
  {
    hide Load, RunWrites, DirectSlotBootable, Fallback, PrepareDirectBoot, ApplyDirect;
    UnknownPlan(cfg, mem, Load(cfg, mem));
    RunOne(cfg.crc, mem, Put(Load(cfg, mem)));
    var none: seq<Write> := [];
    assert none + none == none;
  }

  lemma UnknownPlan(cfg: Config, mem: Image, m: Metadata)
    requires !SlotOrNoneValid(m.core.pendingSlot) && SlotValid(m.core.activeSlot) && m.core.activeSlot == m.core.confirmedSlot
    ensures ApplyDirect(cfg, mem, m) == Plan([], m, false) && PrepareDirectBoot(cfg, mem, m) == Plan([], m, true)
  {
    hide ValidateSlotAt, DirectSlotBootable;
  }

  /** With no active slot an offer is recorded as none and taken back, without counting a rollback, and the boot falls back to the
      program in slot A. */
  lemma OfferWithoutActiveSlot(cfg: Config, mem: Image)
    requires var m := Load(cfg, mem); m.ab.bootMode == MODE_DIRECT_AB && SlotValid(m.core.pendingSlot) && !SlotValid(m.core.activeSlot)
    ensures var m, boot := Load(cfg, mem), BootOf(cfg, mem);
            && boot.writes == [Put(boot.metadata)] && Follows(cfg.crc, m, boot.metadata)
            && (boot.target == Enter(SLOT_A_OFFSET) <==> AppVectorOk(mem, SLOT_A_OFFSET)) && boot.target in {Enter(SLOT_A_OFFSET), Halt}
            && boot.metadata.core.pendingSlot == SLOT_NONE && boot.metadata.core.bootAttempts == 0
            && boot.metadata.core.lastBootResult == RESULT_NO_PENDING && boot.metadata.core.lastBootSourceSlot == m.core.pendingSlot
            && boot.metadata.core.activeSlot == m.core.activeSlot && boot.metadata.core.confirmedSlot == m.core.confirmedSlot
            && boot.metadata.core.rollbackCount == m.core.rollbackCount && SameImages(m, boot.metadata)
  {
    hide Load, RunWrites, Follows, SlotsKept, ValidateSlotAt;
    var m := Load(cfg, mem);
    RefusalFollows(cfg.crc, m, RESULT_NO_PENDING, m.core.pendingSlot);
    var p := ApplyDirect(cfg, mem, m);
    assert p.writes + [] == p.writes;
    StoringKeepsSlots(cfg.crc, mem, p.metadata);
    SlotsKeptSlice(mem, RunWrites(cfg.crc, mem, p.writes), SLOT_A_OFFSET, SLOT_A_OFFSET + 4);
    SlotsKeptSlice(mem, RunWrites(cfg.crc, mem, p.writes), SLOT_A_OFFSET + 4, SLOT_A_OFFSET + 8);
  }

  // ----- where a boot goes when the active slot is given up -----

  /** An active slot that is not confirmed, with its boots used up or an image that does not validate, and nothing pending. */
  ghost predicate GivenUp(cfg: Config, mem: Image, m: Metadata) {
    && m == Load(cfg, mem) && LogInv(cfg.crc, mem) && m.ab.bootMode == MODE_DIRECT_AB && m.core.pendingSlot == SLOT_NONE
    && SlotValid(m.core.activeSlot) && m.core.activeSlot != m.core.confirmedSlot
    && (m.core.bootAttempts >= MAX_BOOT_ATTEMPTS || !ValidateSlotDirect(cfg.crc, mem, m, m.core.activeSlot))
  }

  /** What the fall back to a slot records. */
  ghost predicate FellBack(m: Metadata, r: Metadata, slot: u32) {
    && r.ab.bootMode == MODE_DIRECT_AB && r.core.pendingSlot == SLOT_NONE && r.core.activeSlot == slot
    && r.core.confirmedSlot == m.core.confirmedSlot && r.core.bootAttempts == 0 && SameImages(m, r)
    && r.core.rollbackCount == Inc(m.core.rollbackCount) && r.ab.previousSlot == m.core.activeSlot
    && r.core.lastBootResult == (if m.core.bootAttempts >= MAX_BOOT_ATTEMPTS then RESULT_MAX_ATTEMPTS else RESULT_ACTIVE_VALIDATE_FAILED)
    && r.core.lastBootSourceSlot == m.core.activeSlot
    && r.core.lastBootSize == SlotSize(m, m.core.activeSlot) && r.core.lastBootCrc32 == SlotCrc32(m, m.core.activeSlot)
  }

  lemma FallBackPlan(cfg: Config, mem: Image, m: Metadata, slot: u32)
    requires GivenUp(cfg, mem, m) && slot == SelectRollbackSlot(cfg.crc, mem, m) && SlotValid(slot)
    ensures var p := PrepareDirectBoot(cfg, mem, m);
            p.ok && p.writes == [Put(p.metadata)] && FellBack(m, p.metadata, slot) && Follows(cfg.crc, m, p.metadata)
  {
    hide Load, LogInv, ValidateSlotAt, SelectRollbackSlot;
    var reason := if m.core.bootAttempts >= MAX_BOOT_ATTEMPTS then RESULT_MAX_ATTEMPTS else RESULT_ACTIVE_VALIDATE_FAILED;
    CommittedFollows(cfg.crc, m, m.(
      core := m.core.(activeSlot := slot, pendingSlot := SLOT_NONE, bootAttempts := 0, rollbackCount := Inc(m.core.rollbackCount),
                      lastBootResult := reason, lastBootSourceSlot := m.core.activeSlot,
                      lastBootSize := SlotSize(m, m.core.activeSlot), lastBootCrc32 := SlotCrc32(m, m.core.activeSlot)),
      ab := m.ab.(previousSlot := m.core.activeSlot)));
  }

  lemma NothingOffered(cfg: Config, mem: Image, m: Metadata)
    requires m == Load(cfg, mem) && m.ab.bootMode == MODE_DIRECT_AB && m.core.pendingSlot == SLOT_NONE
    ensures FirstPart(cfg, mem) == Plan([], m, false)
  {
    hide Load;
  }

  lemma FallBackBoot(cfg: Config, mem: Image, m: Metadata, slot: u32)
    requires GivenUp(cfg, mem, m) && slot == SelectRollbackSlot(cfg.crc, mem, m) && SlotValid(slot) && DirectSlotBootable(cfg.crc, mem, m, slot)
    ensures var r := PrepareDirectBoot(cfg, mem, m).metadata; BootOf(cfg, mem) == Boot([Put(r)], r, Enter(SlotOffset(slot)))
  {
    hide Load, LogInv, ValidateSlotAt, RunWrites, FirstPart, PrepareDirectBoot, DirectSlotBootable, Fallback, Follows, SlotsKept,
      SelectRollbackSlot;
    NothingOffered(cfg, mem, m);
    RunOne(cfg.crc, mem, Put(m));
    FallBackPlan(cfg, mem, m, slot);
    var r := PrepareDirectBoot(cfg, mem, m).metadata;
    assert [] + [Put(r)] == [Put(r)];
    StoringKeepsSlots(cfg.crc, mem, r);
    ValidationKept(cfg.crc, mem, RunWrites(cfg.crc, mem, [Put(r)]), m, r, slot);
  }

  /** A slot that is given up is left for the confirmed slot if that can be booted, else for the previous one if that can, and this is
      recorded; if neither can, nothing is recorded and the boot falls back to whatever runs in slot A. */
  lemma GivenUpGoesTo(cfg: Config, mem: Image, m: Metadata)
    requires GivenUp(cfg, mem, m)
    ensures var crc, boot := cfg.crc, BootOf(cfg, mem);
            var confirmed, previous := m.core.confirmedSlot, m.ab.previousSlot;
            && (DirectSlotBootable(crc, mem, m, confirmed) ==>
                  boot.target == Enter(SlotOffset(confirmed)) && boot.writes == [Put(boot.metadata)] && FellBack(m, boot.metadata, confirmed))
            && (!DirectSlotBootable(crc, mem, m, confirmed) && DirectSlotBootable(crc, mem, m, previous) ==>
                  boot.target == Enter(SlotOffset(previous)) && boot.writes == [Put(boot.metadata)] && FellBack(m, boot.metadata, previous))
            && (!DirectSlotBootable(crc, mem, m, confirmed) && !DirectSlotBootable(crc, mem, m, previous) ==>
                  boot == Boot([], m, Fallback(crc, mem, m)))
  {
    hide Load, LogInv, ValidateSlotAt, RunWrites, FirstPart, Fallback, Follows, GivenUp, FellBack;
    var slot := SelectRollbackSlot(cfg.crc, mem, m);
    if slot == SLOT_NONE {
      NowhereToGo(cfg, mem, m);
    } else {
      assert SlotValid(slot) && DirectSlotBootable(cfg.crc, mem, m, slot);
      hide DirectSlotBootable, PrepareDirectBoot, BootOf;
      FallBackPlan(cfg, mem, m, slot);
      FallBackBoot(cfg, mem, m, slot);
    }
  }

  lemma NowhereToGo(cfg: Config, mem: Image, m: Metadata)
    requires GivenUp(cfg, mem, m) && SelectRollbackSlot(cfg.crc, mem, m) == SLOT_NONE
    ensures BootOf(cfg, mem) == Boot([], m, Fallback(cfg.crc, mem, m))
  {
    hide Load, LogInv, ValidateSlotAt, RunWrites, FirstPart, Fallback, SelectRollbackSlot, DirectSlotBootable;
    NothingOffered(cfg, mem, m);
    RunOne(cfg.crc, mem, Put(m));
    var none: seq<Write> := [];
    assert none + none == none;
  }

  /** A confirmed slot that cannot be booted is not given up: nothing is recorded, and the boot falls back to slot A. */
  lemma ConfirmedSlotUnbootable(cfg: Config, mem: Image, m: Metadata)
    requires m == Load(cfg, mem) && m.ab.bootMode == MODE_DIRECT_AB && m.core.pendingSlot == SLOT_NONE
    requires m.core.activeSlot == m.core.confirmedSlot || !SlotValid(m.core.activeSlot)
    requires !DirectSlotBootable(cfg.crc, mem, m, m.core.activeSlot)
    ensures BootOf(cfg, mem) == Boot([], m, Fallback(cfg.crc, mem, m))
  {
    hide Load, RunWrites, FirstPart, Fallback, DirectSlotBootable, PrepareDirectBoot;
    NothingOffered(cfg, mem, m);
    NothingPrepared(cfg, mem, m);
    RunOne(cfg.crc, mem, Put(m));
    var none: seq<Write> := [];
    assert none + none == none;
  }

  lemma NothingPrepared(cfg: Config, mem: Image, m: Metadata)
    requires m.core.activeSlot == m.core.confirmedSlot || !SlotValid(m.core.activeSlot)
    ensures PrepareDirectBoot(cfg, mem, m) == Plan([], m, SlotValid(m.core.activeSlot))
  {
    hide ValidateSlotAt;
  }
}
