/** Direct A/B: an unconfirmed slot gets a bounded number of boots and is then given up for good. */
module DirectRuns {
  import opened Bytes
  import opened Flash
  import opened Metadata
  import opened Partition
  import opened MetadataLog
  import opened MetadataRegister
  import opened BootPlan
  import opened SlotCopy
  import opened PowerLoss
  import CopyRuns

  /** What is on trial: a slot, and the confirmed one to fall back to. */
  datatype Trial = Trial(slot: u32, confirmed: u32)

  /** The record runs `active` in direct mode, with nothing new pending. */
  ghost predicate Running(t: Trial, m: Metadata, active: u32) {
    && m.ab.bootMode == MODE_DIRECT_AB && m.core.pendingSlot == SLOT_NONE
    && m.core.activeSlot == active && m.core.confirmedSlot == t.confirmed
  }

  /** The boots the slot on trial still has: none when it does not validate. */
  function Budget(crc: Crc, mem: Image, m: Metadata): nat {
    if m.core.bootAttempts < MAX_BOOT_ATTEMPTS && ValidateSlotDirect(crc, mem, m, m.core.activeSlot)
    then MAX_BOOT_ATTEMPTS - m.core.bootAttempts else 0
  }

  /** The unconfirmed slot is on trial, with at most `left` boots, and the confirmed slot can be booted. */
  ghost predicate OnTrial(cfg: Config, mem: Image, t: Trial, left: nat) {
    var m := Load(cfg, mem);
    && LogInv(cfg.crc, mem) && SlotValid(t.slot) && SlotValid(t.confirmed) && t.slot != t.confirmed
    && Running(t, m, t.slot) && Budget(cfg.crc, mem, m) <= left
    && DirectSlotBootable(cfg.crc, mem, m, t.confirmed)
  }

  /** The confirmed slot runs. */
  ghost predicate Settled(cfg: Config, mem: Image, t: Trial) {
    && LogInv(cfg.crc, mem) && SlotValid(t.confirmed) && Running(t, Load(cfg, mem), t.confirmed)
    && DirectSlotBootable(cfg.crc, mem, Load(cfg, mem), t.confirmed)
  }

  // ----- validation looks at the slots only -----

  /** Two records that agree on the images. */
  ghost predicate SameImages(a: Metadata, b: Metadata) {
    && a.core.slotASize == b.core.slotASize && a.core.slotACrc32 == b.core.slotACrc32
    && a.core.slotBSize == b.core.slotBSize && a.core.slotBCrc32 == b.core.slotBCrc32
  }

  lemma SlotsKeptSlice(mem: Image, after: Image, lo: nat, hi: nat)
    requires SlotsKept(mem, after) && lo <= hi <= METADATA_OFFSET
    ensures after[lo..hi] == mem[lo..hi]
  {
    SliceOfPrefix(mem, METADATA_OFFSET, lo, hi);
    SliceOfPrefix(after, METADATA_OFFSET, lo, hi);
  }

  lemma ValidationKept(crc: Crc, mem: Image, after: Image, a: Metadata, b: Metadata, slot: u32)
    requires SlotsKept(mem, after) && SameImages(a, b) && SlotValid(slot)
    ensures ValidateSlotDirect(crc, after, b, slot) <==> ValidateSlotDirect(crc, mem, a, slot)
    ensures DirectSlotBootable(crc, after, b, slot) <==> DirectSlotBootable(crc, mem, a, slot)
  {
    hide SlotsKept, VectorOk;
    var offset, size := SlotOffset(slot), SlotSize(a, slot);
    SlotsKeptSlice(mem, after, offset, offset + 8);
    SlotsKeptSlice(mem, after, offset, offset + 4);
    SlotsKeptSlice(mem, after, offset + 4, offset + 8);
    if size <= SlotCapacity(slot) { SlotsKeptSlice(mem, after, offset, offset + size); }
  }

  // ----- one boot -----

  /** The record a boot of an unconfirmed slot stores: one more attempt, or the fall back. */
  function TrialRecord(crc: Crc, t: Trial, mem: Image, m: Metadata): Metadata {
    if Budget(crc, mem, m) > 0 then Committed(crc, m.(core := m.core.(bootAttempts := Inc(m.core.bootAttempts))))
    else RolledBack(crc, m,
                    if m.core.bootAttempts >= MAX_BOOT_ATTEMPTS then RESULT_MAX_ATTEMPTS else RESULT_ACTIVE_VALIDATE_FAILED, t)
  }

  function RolledBack(crc: Crc, m: Metadata, reason: u32, t: Trial): Metadata {
    Committed(crc, m.(
      core := m.core.(activeSlot := t.confirmed, pendingSlot := SLOT_NONE, bootAttempts := 0,
                      rollbackCount := Inc(m.core.rollbackCount), lastBootResult := reason, lastBootSourceSlot := t.slot,
                      lastBootSize := SlotSize(m, t.slot), lastBootCrc32 := SlotCrc32(m, t.slot)),
      ab := m.ab.(previousSlot := t.slot)))
  }

  /** What the record keeps and what it changes. */
  lemma TrialRecordFields(crc: Crc, t: Trial, mem: Image, m: Metadata)
    requires Running(t, m, t.slot) && SlotValid(t.slot)
    ensures var r := TrialRecord(crc, t, mem, m);
            && Follows(crc, m, r) && SameImages(m, r)
            && Running(t, r, if Budget(crc, mem, m) > 0 then t.slot else t.confirmed)
            && (Budget(crc, mem, m) > 0 ==> r.core.bootAttempts == m.core.bootAttempts + 1)
  {
    hide ValidateSlotAt;
    if Budget(crc, mem, m) > 0 {
      CommittedFollows(crc, m, m.(core := m.core.(bootAttempts := Inc(m.core.bootAttempts))));
    } else {
      RolledBackFields(crc, t, m, if m.core.bootAttempts >= MAX_BOOT_ATTEMPTS then RESULT_MAX_ATTEMPTS else RESULT_ACTIVE_VALIDATE_FAILED);
    }
  }

  lemma RolledBackFields(crc: Crc, t: Trial, m: Metadata, reason: u32)
    requires Running(t, m, t.slot) && SlotValid(t.slot)
    ensures var r := RolledBack(crc, m, reason, t); Follows(crc, m, r) && SameImages(m, r) && Running(t, r, t.confirmed)
  {
    CommittedFollows(crc, m, m.(
      core := m.core.(activeSlot := t.confirmed, pendingSlot := SLOT_NONE, bootAttempts := 0,
                      rollbackCount := Inc(m.core.rollbackCount), lastBootResult := reason, lastBootSourceSlot := t.slot,
                      lastBootSize := SlotSize(m, t.slot), lastBootCrc32 := SlotCrc32(m, t.slot)),
      ab := m.ab.(previousSlot := t.slot)));
  }

  /** The first part of a boot with nothing pending does nothing. */
  lemma NothingPending(cfg: Config, mem: Image, t: Trial, active: u32)
    requires Running(t, Load(cfg, mem), active)
    ensures FirstPart(cfg, mem) == Plan([], Load(cfg, mem), false)
  {
    hide Load;
  }

  lemma TrialPlan(cfg: Config, mem: Image, t: Trial, left: nat)
    requires OnTrial(cfg, mem, t, left)
    ensures var r := TrialRecord(cfg.crc, t, mem, Load(cfg, mem));
            PrepareDirectBoot(cfg, mem, Load(cfg, mem)) == Plan([Put(r)], r, true)
  {
    hide Load, LogInv, ValidateSlotAt, Committed, AppVectorOk;
  }

  lemma BudgetValidates(crc: Crc, mem: Image, m: Metadata, slot: u32)
    requires m.core.activeSlot == slot && SlotValid(slot) && Budget(crc, mem, m) > 0
    ensures ValidateSlotDirect(crc, mem, m, slot) && DirectSlotBootable(crc, mem, m, slot)
  {
    hide VectorOk;
  }

  /** A boot on trial stores one record and enters the slot on trial while it has boots left, else the confirmed one. */
  lemma TrialBoot(cfg: Config, mem: Image, t: Trial, left: nat)
    requires OnTrial(cfg, mem, t, left)
    ensures var m := Load(cfg, mem);
            var r := TrialRecord(cfg.crc, t, mem, m);
            BootOf(cfg, mem) == Boot([Put(r)], r, Enter(SlotOffset(if Budget(cfg.crc, mem, m) > 0 then t.slot else t.confirmed)))
  {
    hide Load, LogInv, ValidateSlotAt, RunWrites, FirstPart, PrepareDirectBoot, DirectSlotBootable, Fallback, TrialRecord, Follows,
      StoreOps, Apply, Budget;
    var m := Load(cfg, mem);
    var r := TrialRecord(cfg.crc, t, mem, m);
    NothingPending(cfg, mem, t, t.slot);
    RunOne(cfg.crc, mem, Put(r));
    TrialPlan(cfg, mem, t, left);
    TrialRecordFields(cfg.crc, t, mem, m);
    assert [] + [Put(r)] == [Put(r)];
    PutFramed(cfg.crc, mem, r);
    var slot := if Budget(cfg.crc, mem, m) > 0 then t.slot else t.confirmed;
    ValidationKept(cfg.crc, mem, RunWrites(cfg.crc, mem, [Put(r)]), m, r, slot);
    if Budget(cfg.crc, mem, m) > 0 { BudgetValidates(cfg.crc, mem, m, t.slot); }
  }

  /** With the record stored, a boot is used up, or the confirmed slot runs. */
  lemma TrialStep(cfg: Config, mem: Image, t: Trial, left: nat, after: Image)
    requires OnTrial(cfg, mem, t, left) && LogInv(cfg.crc, after) && SlotsKept(mem, after)
    requires Load(cfg, after) == TrialRecord(cfg.crc, t, mem, Load(cfg, mem))
    ensures if Budget(cfg.crc, mem, Load(cfg, mem)) > 0 then left > 0 && OnTrial(cfg, after, t, left - 1) else Settled(cfg, after, t)
  {
    hide Load, LogInv, ValidateSlotAt, DirectSlotBootable, TrialRecord, Follows, SlotsKept;
    var m := Load(cfg, mem);
    TrialRecordFields(cfg.crc, t, mem, m);
    ValidationKept(cfg.crc, mem, after, m, Load(cfg, after), t.slot);
    ValidationKept(cfg.crc, mem, after, m, Load(cfg, after), t.confirmed);
  }

  lemma TrialUnmoved(cfg: Config, mem: Image, t: Trial, left: nat, after: Image)
    requires OnTrial(cfg, mem, t, left) && LogInv(cfg.crc, after) && SlotsKept(mem, after)
    requires Load(cfg, after) == Load(cfg, mem)
    ensures OnTrial(cfg, after, t, left)
  {
    hide Load, LogInv, ValidateSlotAt, DirectSlotBootable, SlotsKept;
    ValidationKept(cfg.crc, mem, after, Load(cfg, mem), Load(cfg, mem), t.slot);
    ValidationKept(cfg.crc, mem, after, Load(cfg, mem), Load(cfg, mem), t.confirmed);
  }

  /** The confirmed slot is entered, and nothing is written. */
  lemma SettledBoot(cfg: Config, mem: Image, t: Trial)
    requires Settled(cfg, mem, t)
    ensures BootOf(cfg, mem).writes == [] && BootOf(cfg, mem).target == Enter(SlotOffset(t.confirmed))
  {
    hide Load, LogInv, ValidateSlotAt, RunWrites, FirstPart, DirectSlotBootable, Fallback;
    NothingPending(cfg, mem, t, t.confirmed);
    RunOne(cfg.crc, mem, Put(Load(cfg, mem)));
  }

  // ----- any number of boots and power losses -----

  /** One power cycle: whether the boot got as far as entering an application, and what it leaves. */
  datatype DirectTurn = DirectTurn(completed: bool, after: Image)

  ghost predicate IsDirectRun(cfg: Config, mem: Image, turns: seq<DirectTurn>)
    decreases |turns|
  {
    turns == [] ||
    (var ws := BootOf(cfg, mem).writes;
     && Recordable(cfg.crc, Load(cfg, mem), ws)
     && (if turns[0].completed then turns[0].after == RunWrites(cfg.crc, mem, ws)
         else CutDuring(cfg.crc, mem, ExpandAll(cfg.crc, ws), turns[0].after))
     && IsDirectRun(cfg, turns[0].after, turns[1..]))
  }

  /** Where the completed boots of a run end. */
  function Entered(cfg: Config, mem: Image, turns: seq<DirectTurn>): seq<Target>
    decreases |turns|
  {
    if turns == [] then []
    else (if turns[0].completed then [BootOf(cfg, mem).target] else []) + Entered(cfg, turns[0].after, turns[1..])
  }

  /** First at most `left` boots of the slot on trial, then boots of the confirmed slot only. */
  ghost predicate GivenUpAfter(t: Trial, left: nat, targets: seq<Target>) {
    && (forall i :: 0 <= i < |targets| ==> targets[i] in {Enter(SlotOffset(t.slot)), Enter(SlotOffset(t.confirmed))})
    && (forall i :: left <= i < |targets| ==> targets[i] == Enter(SlotOffset(t.confirmed)))
    && (forall i, j :: 0 <= i < j < |targets| && targets[i] == Enter(SlotOffset(t.confirmed)) ==>
          targets[j] == Enter(SlotOffset(t.confirmed)))
  }

  lemma TrialThen(t: Trial, left: nat, targets: seq<Target>)
    requires left > 0 && GivenUpAfter(t, left - 1, targets) && SlotValid(t.slot) && SlotValid(t.confirmed) && t.slot != t.confirmed
    ensures GivenUpAfter(t, left, [Enter(SlotOffset(t.slot))] + targets)
  {
    var all := [Enter(SlotOffset(t.slot))] + targets;
    assert forall i :: 0 < i < |all| ==> all[i] == targets[i - 1];
  }

  lemma ConfirmedThen(t: Trial, left: nat, targets: seq<Target>)
    requires GivenUpAfter(t, 0, targets)
    ensures GivenUpAfter(t, left, [Enter(SlotOffset(t.confirmed))] + targets)
  {
    var all := [Enter(SlotOffset(t.confirmed))] + targets;
    assert forall i :: 0 < i < |all| ==> all[i] == targets[i - 1];
  }

  lemma LessIsEnough(t: Trial, less: nat, left: nat, targets: seq<Target>)
    requires GivenUpAfter(t, less, targets) && less <= left
    ensures GivenUpAfter(t, left, targets)
  {
  }

  /** After the first boot of the confirmed slot, every boot is one of it. */
  lemma {:induction false} SettledForGood(cfg: Config, mem: Image, t: Trial, turns: seq<DirectTurn>)
    requires Settled(cfg, mem, t) && IsDirectRun(cfg, mem, turns)
    ensures GivenUpAfter(t, 0, Entered(cfg, mem, turns))
    decreases |turns|
  {
    hide Load, BootOf, RunWrites, GivenUpAfter, Settled, Recordable, CutDuring;
    if turns == [] {
      NothingEntered(t);
    } else {
      SettledBoot(cfg, mem, t);
      RunOne(cfg.crc, mem, Put(Load(cfg, mem)));
      NothingToCut(cfg.crc, mem, turns[0].after);
      SettledForGood(cfg, turns[0].after, t, turns[1..]);
      if turns[0].completed {
        ConfirmedThen(t, 0, Entered(cfg, turns[0].after, turns[1..]));
      } else {
        assert [] + Entered(cfg, turns[0].after, turns[1..]) == Entered(cfg, turns[0].after, turns[1..]);
      }
    }
  }

  lemma NothingEntered(t: Trial)
    ensures GivenUpAfter(t, 0, [])
  {
  }

  lemma NothingToCut(crc: Crc, mem: Image, after: Image)
    ensures CutDuring(crc, mem, [], after) ==> after == mem
  {
  }

  /** What one power cycle on trial leaves: nothing used, one boot used, or the confirmed slot running. */
  lemma TrialCycle(cfg: Config, mem: Image, t: Trial, left: nat, turn: DirectTurn)
    requires OnTrial(cfg, mem, t, left) && IsDirectRun(cfg, mem, [turn])
    ensures var used := if Budget(cfg.crc, mem, Load(cfg, mem)) > 0 then left > 0 && OnTrial(cfg, turn.after, t, left - 1)
                        else Settled(cfg, turn.after, t);
            used || (!turn.completed && OnTrial(cfg, turn.after, t, left))
  {
    hide Load, LogInv, BootOf, RunWrites, Recordable, Storable, CutDuring, Budget, DirectSlotBootable, TrialRecord, Follows, StoreOps,
      Apply, SlotsKept;
    var m := Load(cfg, mem);
    var r := TrialRecord(cfg.crc, t, mem, m);
    TrialBoot(cfg, mem, t, left);
    TrialRecordFields(cfg.crc, t, mem, m);
    LoadIsShaped(cfg, mem);
    RecordableNext(cfg.crc, m, [Put(r)]);
    RunOne(cfg.crc, mem, Put(r));
    if turn.completed {
      DurableComplete(cfg, mem, r);
      TrialStep(cfg, mem, t, left, turn.after);
    } else {
      DurableStep(cfg, mem, r, turn.after);
      if Load(cfg, turn.after) == r {
        TrialStep(cfg, mem, t, left, turn.after);
      } else {
        TrialUnmoved(cfg, mem, t, left, turn.after);
      }
    }
  }

  /** However often the power fails, at most `left` further boots enter the slot on trial; the next boot goes back to
      the confirmed slot, and so does every boot after it. */
  lemma {:induction false} TrialIsBounded(cfg: Config, mem: Image, t: Trial, left: nat, turns: seq<DirectTurn>)
    requires OnTrial(cfg, mem, t, left) && IsDirectRun(cfg, mem, turns)
    ensures GivenUpAfter(t, left, Entered(cfg, mem, turns))
    decreases |turns|
  {
    hide Load, BootOf, RunWrites, GivenUpAfter, Settled, OnTrial, Recordable, CutDuring, Budget;
    if turns == [] {
      NothingEntered(t);
      LessIsEnough(t, 0, left, []);
    } else {
      var turn, rest := turns[0], Entered(cfg, turns[0].after, turns[1..]);
      assert [turn][1..] == [];
      TrialCycle(cfg, mem, t, left, turn);
      assert [] + rest == rest;
      if !turn.completed && OnTrial(cfg, turn.after, t, left) {
        TrialIsBounded(cfg, turn.after, t, left, turns[1..]);
      } else {
        UsedIsBounded(cfg, mem, t, left, turns);
      }
    }
  }

  lemma UsedIsBounded(cfg: Config, mem: Image, t: Trial, left: nat, turns: seq<DirectTurn>)
    requires OnTrial(cfg, mem, t, left) && turns != [] && IsDirectRun(cfg, mem, turns)
    requires if Budget(cfg.crc, mem, Load(cfg, mem)) > 0 then left > 0 && OnTrial(cfg, turns[0].after, t, left - 1)
             else Settled(cfg, turns[0].after, t)
    ensures GivenUpAfter(t, left, Entered(cfg, mem, turns))
    decreases |turns|, 0
  {
    hide Load, BootOf, RunWrites, GivenUpAfter, Settled, Recordable, CutDuring, Budget, LogInv, Running, DirectSlotBootable, TrialRecord;
    var rest := Entered(cfg, turns[0].after, turns[1..]);
    assert [] + rest == rest;
    TrialBoot(cfg, mem, t, left);
    if Budget(cfg.crc, mem, Load(cfg, mem)) > 0 {
      TrialIsBounded(cfg, turns[0].after, t, left - 1, turns[1..]);
      TrialThen(t, left, rest);
      LessIsEnough(t, left - 1, left, rest);
    } else {
      SettledForGood(cfg, turns[0].after, t, turns[1..]);
      ConfirmedThen(t, left, rest);
      LessIsEnough(t, 0, left, rest);
    }
  }

  // ----- the bound is met -----

  lemma BudgetStep(crc: Crc, mem: Image, after: Image, m: Metadata, r: Metadata)
    requires SlotsKept(mem, after) && SameImages(m, r) && SlotValid(m.core.activeSlot)
    requires r.core.activeSlot == m.core.activeSlot && r.core.bootAttempts == m.core.bootAttempts + 1
    requires Budget(crc, mem, m) > 0
    ensures Budget(crc, after, r) == Budget(crc, mem, m) - 1
  {
    hide ValidateSlotAt, SlotsKept, DirectSlotBootable;
    ValidationKept(crc, mem, after, m, r, m.core.activeSlot);
  }

  lemma CompletedTrial(cfg: Config, mem: Image, t: Trial, left: nat, after: Image)
    requires OnTrial(cfg, mem, t, left) && Budget(cfg.crc, mem, Load(cfg, mem)) == left > 0
    requires IsDirectRun(cfg, mem, [DirectTurn(true, after)])
    ensures OnTrial(cfg, after, t, left - 1) && Budget(cfg.crc, after, Load(cfg, after)) == left - 1
  {
    hide Load, LogInv, BootOf, RunWrites, Recordable, Storable, CutDuring, Budget, DirectSlotBootable, TrialRecord, Follows, StoreOps,
      Apply, SlotsKept;
    var m := Load(cfg, mem);
    var r := TrialRecord(cfg.crc, t, mem, m);
    TrialBoot(cfg, mem, t, left);
    TrialRecordFields(cfg.crc, t, mem, m);
    LoadIsShaped(cfg, mem);
    RecordableNext(cfg.crc, m, [Put(r)]);
    RunOne(cfg.crc, mem, Put(r));
    DurableComplete(cfg, mem, r);
    TrialStep(cfg, mem, t, left, after);
    BudgetStep(cfg.crc, mem, after, m, r);
  }

  /** Without power losses a slot that validates is entered in every one of its boots. */
  lemma {:induction false} UncutTrialIsExact(cfg: Config, mem: Image, t: Trial, left: nat, turns: seq<DirectTurn>)
    requires OnTrial(cfg, mem, t, left) && Budget(cfg.crc, mem, Load(cfg, mem)) == left
    requires IsDirectRun(cfg, mem, turns) && |turns| <= left && forall i :: 0 <= i < |turns| ==> turns[i].completed
    ensures Entered(cfg, mem, turns) == seq(|turns|, _ => Enter(SlotOffset(t.slot)))
    decreases |turns|
  {
    hide Load, BootOf, RunWrites, OnTrial, Recordable, CutDuring, Budget;
    if turns != [] {
      var after := turns[0].after;
      assert turns[0] == DirectTurn(true, after) && [turns[0]][1..] == [];
      TrialBoot(cfg, mem, t, left);
      CompletedTrial(cfg, mem, t, left, after);
      UncutTrialIsExact(cfg, after, t, left - 1, turns[1..]);
    }
  }

  // ----- how a trial starts -----

  /** A pending image in direct mode: the slot to try is neither active nor confirmed, and validates. */
  ghost predicate Offered(cfg: Config, mem: Image, t: Trial) {
    var m := Load(cfg, mem);
    && LogInv(cfg.crc, mem) && SlotValid(t.slot) && SlotValid(t.confirmed) && t.slot != t.confirmed
    && m.ab.bootMode == MODE_DIRECT_AB && m.core.pendingSlot == t.slot
    && m.core.activeSlot == t.confirmed && m.core.confirmedSlot == t.confirmed && m.core.bootAttempts == 0
    && ValidateSlotDirect(cfg.crc, mem, m, t.slot) && DirectSlotBootable(cfg.crc, mem, m, t.confirmed)
  }

  /** What marking an image pending changes. */
  lemma MarkedFields(crc: Crc, t: Trial, m: Metadata, size: u32, imageCrc: u32)
    requires SlotValid(t.slot) && SlotValid(t.confirmed) && t.slot != t.confirmed && size != 0
    ensures var marked := MarkPending(crc, m, t.slot, size, imageCrc);
            marked.Some? &&
            var r := marked.value;
            && r.ab.bootMode == m.ab.bootMode && r.core.pendingSlot == t.slot && r.core.bootAttempts == 0
            && r.core.activeSlot == m.core.activeSlot && r.core.confirmedSlot == m.core.confirmedSlot
            && SlotSize(r, t.slot) == size && SlotCrc32(r, t.slot) == imageCrc
            && SlotSize(r, t.confirmed) == SlotSize(m, t.confirmed) && SlotCrc32(r, t.confirmed) == SlotCrc32(m, t.confirmed)
  {
  }

  lemma SameSlotSameVerdict(crc: Crc, mem: Image, a: Metadata, b: Metadata, slot: u32)
    requires SlotSize(a, slot) == SlotSize(b, slot) && SlotCrc32(a, slot) == SlotCrc32(b, slot)
    ensures DirectSlotBootable(crc, mem, a, slot) <==> DirectSlotBootable(crc, mem, b, slot)
  {
    hide ValidateSlotAt, AppVectorOk;
  }

  /** Marking a valid image pending in the slot that does not run offers it. */
  lemma MarkingOffers(cfg: Config, mem: Image, t: Trial, size: u32, imageCrc: u32)
    requires Settled(cfg, mem, t) && SlotValid(t.slot) && t.slot != t.confirmed
    requires ValidateSlotAt(cfg.crc, mem, t.slot, size, imageCrc, SlotOffset(t.slot))
    ensures var marked := MarkPending(cfg.crc, Load(cfg, mem), t.slot, size, imageCrc);
            && marked.Some?
            && (Storable(cfg.crc, Load(cfg, mem), marked.value) ==> Offered(cfg, Apply(mem, StoreOps(cfg.crc, marked.value)), t))
  {
    var m := Load(cfg, mem);
    assert size != 0;
    MarkedFields(cfg.crc, t, m, size, imageCrc);
    hide Load, LogInv, MarkPending, StoreOps, Apply, Storable, DirectSlotBootable, SlotsKept, ValidateSlotAt;
    var r := MarkPending(cfg.crc, m, t.slot, size, imageCrc).value;
    if Storable(cfg.crc, m, r) {
      DurableComplete(cfg, mem, r);
      SameSlotSameVerdict(cfg.crc, mem, m, r, t.confirmed);
      ValidationKept(cfg.crc, mem, Apply(mem, StoreOps(cfg.crc, r)), r, r, t.slot);
      ValidationKept(cfg.crc, mem, Apply(mem, StoreOps(cfg.crc, r)), r, r, t.confirmed);
    }
  }

  /** A new device built for direct mode runs slot A, if there is a program in it. */
  lemma NewDeviceIsSettled(cfg: Config, mem: Image)
    requires CopyRuns.BlankLog(mem) && cfg.defaultDirectAb && AppVectorOk(mem, SLOT_A_OFFSET)
    ensures Settled(cfg, mem, Trial(SLOT_B, SLOT_A))
  {
    CopyRuns.BlankLogIsGood(cfg, mem);
    hide Load, LogInv, AppVectorOk;
  }

  function OfferRecord(crc: Crc, t: Trial, m: Metadata): Metadata {
    Committed(crc, m.(
      core := m.core.(activeSlot := t.slot, pendingSlot := SLOT_NONE, bootAttempts := 1, lastBootResult := RESULT_APPLIED,
                      lastBootSourceSlot := t.slot, lastBootSize := SlotSize(m, t.slot), lastBootCrc32 := SlotCrc32(m, t.slot)),
      ab := m.ab.(previousSlot := t.confirmed, bootGeneration := Inc(m.ab.bootGeneration))))
  }

  lemma OfferPlan(cfg: Config, mem: Image, t: Trial)
    requires Offered(cfg, mem, t)
    ensures var r := OfferRecord(cfg.crc, t, Load(cfg, mem)); FirstPart(cfg, mem) == Plan([Put(r)], r, true)
  {
    hide Load, LogInv, ValidateSlotAt, UpdateCrc, AppVectorOk;
  }

  lemma OfferRecordFields(crc: Crc, t: Trial, m: Metadata)
    requires SlotValid(t.slot) && SlotValid(t.confirmed) && m.ab.bootMode == MODE_DIRECT_AB && m.core.confirmedSlot == t.confirmed
    ensures var r := OfferRecord(crc, t, m);
            Follows(crc, m, r) && SameImages(m, r) && Running(t, r, t.slot)
            && r.core.bootAttempts == 1 && r.core.lastBootResult == RESULT_APPLIED
  {
    CommittedFollows(crc, m, m.(
      core := m.core.(activeSlot := t.slot, pendingSlot := SLOT_NONE, bootAttempts := 1, lastBootResult := RESULT_APPLIED,
                      lastBootSourceSlot := t.slot, lastBootSize := SlotSize(m, t.slot), lastBootCrc32 := SlotCrc32(m, t.slot)),
      ab := m.ab.(previousSlot := t.confirmed, bootGeneration := Inc(m.ab.bootGeneration))));
  }

  lemma DirectIsBootable(crc: Crc, mem: Image, m: Metadata, slot: u32)
    requires SlotValid(slot) && ValidateSlotDirect(crc, mem, m, slot)
    ensures DirectSlotBootable(crc, mem, m, slot)
  {
    hide VectorOk;
  }

  /** The boot that applies the offer enters the new slot and leaves it on trial with two more boots: three in all. */
  lemma OfferStartsTrial(cfg: Config, mem: Image, t: Trial)
    requires Offered(cfg, mem, t) && Recordable(cfg.crc, Load(cfg, mem), BootOf(cfg, mem).writes)
    ensures BootOf(cfg, mem).target == Enter(SlotOffset(t.slot))
    ensures OnTrial(cfg, RunWrites(cfg.crc, mem, BootOf(cfg, mem).writes), t, MAX_BOOT_ATTEMPTS - 1)
    ensures Load(cfg, RunWrites(cfg.crc, mem, BootOf(cfg, mem).writes)).core.lastBootResult == RESULT_APPLIED
  {
    hide Load, LogInv, ValidateSlotAt, RunWrites, FirstPart, DirectSlotBootable, Fallback, OfferRecord, Follows, StoreOps, Apply,
      Recordable, Storable, SlotsKept;
    var m := Load(cfg, mem);
    var r := OfferRecord(cfg.crc, t, m);
    OfferPlan(cfg, mem, t);
    OfferRecordFields(cfg.crc, t, m);
    assert [Put(r)] + [] == [Put(r)];
    RunOne(cfg.crc, mem, Put(r));
    LoadIsShaped(cfg, mem);
    assert BootOf(cfg, mem).writes == [Put(r)];
    RecordableNext(cfg.crc, m, [Put(r)]);
    DurableComplete(cfg, mem, r);
    var after := RunWrites(cfg.crc, mem, [Put(r)]);
    ValidationKept(cfg.crc, mem, after, m, r, t.slot);
    ValidationKept(cfg.crc, mem, after, m, r, t.confirmed);
    DirectIsBootable(cfg.crc, mem, m, t.slot);
  }

  /** What the fall back records: what failed and why, and one more rollback. */
  ghost predicate Reports(t: Trial, m: Metadata, r: Metadata) {
    && r.core.activeSlot == t.confirmed && r.ab.previousSlot == t.slot && r.core.bootAttempts == 0
    && r.core.rollbackCount == Inc(m.core.rollbackCount)
    && r.core.lastBootSourceSlot == t.slot && r.core.lastBootSize == SlotSize(m, t.slot)
    && r.core.lastBootCrc32 == SlotCrc32(m, t.slot)
    && r.core.lastBootResult == (if m.core.bootAttempts >= MAX_BOOT_ATTEMPTS then RESULT_MAX_ATTEMPTS else RESULT_ACTIVE_VALIDATE_FAILED)
  }

  lemma FallBackReports(crc: Crc, t: Trial, mem: Image, m: Metadata)
    requires Budget(crc, mem, m) == 0
    ensures Reports(t, m, TrialRecord(crc, t, mem, m)) && ConfirmActive(crc, TrialRecord(crc, t, mem, m)).None?
  {
    hide ValidateSlotAt;
  }

  /** A trial that has used up its boots is reported, and the slot given up cannot be confirmed afterwards. */
  lemma RollbackIsReported(cfg: Config, mem: Image, t: Trial, left: nat)
    requires OnTrial(cfg, mem, t, left) && Budget(cfg.crc, mem, Load(cfg, mem)) == 0
    requires Recordable(cfg.crc, Load(cfg, mem), BootOf(cfg, mem).writes)
    ensures var r := Load(cfg, RunWrites(cfg.crc, mem, BootOf(cfg, mem).writes));
            Reports(t, Load(cfg, mem), r) && ConfirmActive(cfg.crc, r).None?
  {
    hide Load, LogInv, BootOf, RunWrites, Recordable, Storable, Budget, DirectSlotBootable, Follows, StoreOps, Apply, TrialRecord,
      Reports, ConfirmActive;
    var m := Load(cfg, mem);
    var r := TrialRecord(cfg.crc, t, mem, m);
    TrialBoot(cfg, mem, t, left);
    TrialRecordFields(cfg.crc, t, mem, m);
    FallBackReports(cfg.crc, t, mem, m);
    LoadIsShaped(cfg, mem);
    RecordableNext(cfg.crc, m, [Put(r)]);
    RunOne(cfg.crc, mem, Put(r));
    DurableComplete(cfg, mem, r);
  }

  // ----- how a trial ends well -----

  lemma ConfirmedFields(crc: Crc, t: Trial, m: Metadata)
    requires Running(t, m, t.slot) && SlotValid(t.slot)
    ensures ConfirmActive(crc, m).Some? <==> m.core.lastBootResult == RESULT_APPLIED
    ensures ConfirmActive(crc, m).Some? ==>
              var r := ConfirmActive(crc, m).value;
              Follows(crc, m, r) && SameImages(m, r) && Running(Trial(t.confirmed, t.slot), r, t.slot)
  {
    if m.core.lastBootResult == RESULT_APPLIED {
      CommittedFollows(crc, m, m.(core := m.core.(
        confirmedSlot := m.core.activeSlot, pendingSlot := SLOT_NONE, bootAttempts := 0, lastBootResult := RESULT_APPLIED,
        lastBootSourceSlot := m.core.activeSlot,
        lastBootSize := if m.core.activeSlot == SLOT_A then m.core.slotASize else m.core.slotBSize,
        lastBootCrc32 := if m.core.activeSlot == SLOT_A then m.core.slotACrc32 else m.core.slotBCrc32)));
    }
  }

  /** Confirming the slot on trial makes it the one every later boot enters; a slot that was not applied cannot be confirmed. */
  lemma ConfirmingSettles(cfg: Config, mem: Image, t: Trial, left: nat)
    requires OnTrial(cfg, mem, t, left) && DirectSlotBootable(cfg.crc, mem, Load(cfg, mem), t.slot)
    ensures ConfirmActive(cfg.crc, Load(cfg, mem)).Some? <==> Load(cfg, mem).core.lastBootResult == RESULT_APPLIED
    ensures ConfirmActive(cfg.crc, Load(cfg, mem)).Some? ==>
              var r := ConfirmActive(cfg.crc, Load(cfg, mem)).value;
              Storable(cfg.crc, Load(cfg, mem), r) ==>
                Settled(cfg, Apply(mem, StoreOps(cfg.crc, r)), Trial(t.confirmed, t.slot))
  {
    hide Load, LogInv, ConfirmActive, StoreOps, Apply, Storable, DirectSlotBootable, SlotsKept, Budget, Follows, ValidateSlotAt;
    var m := Load(cfg, mem);
    ConfirmedFields(cfg.crc, t, m);
    if ConfirmActive(cfg.crc, m).Some? {
      var r := ConfirmActive(cfg.crc, m).value;
      if Storable(cfg.crc, m, r) {
        DurableComplete(cfg, mem, r);
        ValidationKept(cfg.crc, mem, Apply(mem, StoreOps(cfg.crc, r)), m, r, t.slot);
      }
    }
  }
}
