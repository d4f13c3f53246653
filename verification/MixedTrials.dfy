/** A slot on trial while the application runs in between: boots and operations on the metadata, each completed or cut by a
    power loss. */
module MixedTrials {
  import opened Flash
  import opened Metadata
  import opened Partition
  import opened MetadataLog
  import opened MetadataRegister
  import opened BootPlan
  import opened DirectRuns

  /** An operation that neither asks for another image, nor confirms the one that runs, nor changes the boot mode. */
  predicate LeavesTrialAlone(op: Op) { !op.MarkPendingOp? && !op.ConfirmActiveOp? && !op.SetBootModeOp? }

  datatype Span = Booted(boot: DirectTurn) | Applied(turn: Turn)

  function AfterSpan(s: Span): Image { match s case Booted(turn) => turn.after case Applied(turn) => turn.after }

  ghost predicate IsSpan(cfg: Config, mem: Image, s: Span) {
    match s
    case Booted(turn) => IsDirectRun(cfg, mem, [turn])
    case Applied(turn) => LeavesTrialAlone(turn.op) && IsRun(cfg, mem, [turn])
  }

  ghost predicate IsMixedTrial(cfg: Config, mem: Image, spans: seq<Span>)
    decreases |spans|
  {
    spans == [] || (IsSpan(cfg, mem, spans[0]) && IsMixedTrial(cfg, AfterSpan(spans[0]), spans[1..]))
  }

  /** Where a completed boot ends. */
  function EnteredBy(cfg: Config, mem: Image, s: Span): seq<Target> {
    if s.Booted? && s.boot.completed then [BootOf(cfg, mem).target] else []
  }

  function EnteredIn(cfg: Config, mem: Image, spans: seq<Span>): seq<Target>
    decreases |spans|
  {
    if spans == [] then [] else EnteredBy(cfg, mem, spans[0]) + EnteredIn(cfg, AfterSpan(spans[0]), spans[1..])
  }

  // ----- what such an operation leaves -----

  /** The same images, slots, attempts and boot mode. */
  ghost predicate SameTrial(m: Metadata, r: Metadata) {
    && r.core.(sequence := 0, metadataCrc32 := 0) == m.core.(sequence := 0, metadataCrc32 := 0)
    && r.ab.(metadataAbCrc32 := 0) == m.ab.(metadataAbCrc32 := 0)
  }

  lemma CommittedIsSameTrial(crc: Crc, m: Metadata)
    ensures SameTrial(m, Committed(crc, m))
  {
  }

  lemma RecordsAreSameTrial(crc: Crc, op: Op, m: Metadata)
    requires LeavesTrialAlone(op)
    ensures forall r :: r in Records(crc, op, m) ==> SameTrial(m, r)
  {
    hide Mutate, Committed;
    if Mutate(crc, op, m).Some? {
      var r := Mutate(crc, op, m).value;
      OperationsKeepTheRest(crc, op, m);
      CommittedIsSameTrial(crc, r);
      assert SameTrial(m, r);
    }
  }

  lemma {:induction false} StoringKeepsSlots(cfg: Config, mem: Image, records: seq<Metadata>, after: Image)
    requires LogInv(cfg.crc, mem) && AllStorable(cfg.crc, Load(cfg, mem), records)
    ensures SlotsKept(mem, StoreAll(cfg.crc, mem, records))
    ensures CutWhileStoring(cfg.crc, mem, records, after) ==> SlotsKept(mem, after)
    decreases |records|
  {
    hide Load, LogInv, StoreOps, Apply, Storable, HasRecord, CutDuring;
    if records != [] {
      var mem1 := Apply(mem, StoreOps(cfg.crc, records[0]));
      DurableComplete(cfg, mem, records[0]);
      StoringKeepsSlots(cfg, mem1, records[1..], after);
      if CutDuring(cfg.crc, mem, StoreOps(cfg.crc, records[0]), after) {
        DurableStep(cfg, mem, records[0], after);
      }
    }
  }

  lemma LastIsOneOf(m: Metadata, records: seq<Metadata>)
    ensures LastOf(m, records) == m || LastOf(m, records) in records
  {
  }

  /** Whole or cut short, the operation leaves the slots and what the trial goes by. */
  lemma OperationLeavesTrial(cfg: Config, mem: Image, turn: Turn)
    requires LogInv(cfg.crc, mem) && LeavesTrialAlone(turn.op) && IsRun(cfg, mem, [turn])
    ensures LogInv(cfg.crc, turn.after) && SlotsKept(mem, turn.after) && SameTrial(Load(cfg, mem), Load(cfg, turn.after))
  {
    hide Load, LogInv, Records, AllStorable, StoreAll, CutWhileStoring, LeavesTrialAlone, HasRecord;
    var records := Records(cfg.crc, turn.op, Load(cfg, mem));
    RecordsAreSameTrial(cfg.crc, turn.op, Load(cfg, mem));
    StoringKeepsSlots(cfg, mem, records, turn.after);
    if turn.completed {
      CompletedIsLast(cfg, mem, records);
      LastIsOneOf(Load(cfg, mem), records);
    } else {
      CutIsOldOrStored(cfg, mem, records, turn.after);
    }
  }

  lemma SameBudget(crc: Crc, mem: Image, after: Image, m: Metadata, r: Metadata)
    requires SlotsKept(mem, after) && SameTrial(m, r) && SlotValid(m.core.activeSlot)
    ensures Budget(crc, after, r) == Budget(crc, mem, m)
  {
    hide ValidateSlotAt, SlotsKept, DirectSlotBootable;
    ValidationKept(crc, mem, after, m, r, m.core.activeSlot);
  }

  lemma OperationOnTrial(cfg: Config, mem: Image, t: Trial, left: nat, turn: Turn)
    requires OnTrial(cfg, mem, t, left) && LeavesTrialAlone(turn.op) && IsRun(cfg, mem, [turn])
    ensures OnTrial(cfg, turn.after, t, left)
  {
    hide Load, LogInv, ValidateSlotAt, DirectSlotBootable, SlotsKept, IsRun, Budget, LeavesTrialAlone;
    OperationLeavesTrial(cfg, mem, turn);
    SameBudget(cfg.crc, mem, turn.after, Load(cfg, mem), Load(cfg, turn.after));
    ValidationKept(cfg.crc, mem, turn.after, Load(cfg, mem), Load(cfg, turn.after), t.confirmed);
  }

  lemma OperationSettled(cfg: Config, mem: Image, t: Trial, turn: Turn)
    requires Settled(cfg, mem, t) && LeavesTrialAlone(turn.op) && IsRun(cfg, mem, [turn])
    ensures Settled(cfg, turn.after, t)
  {
    hide Load, LogInv, ValidateSlotAt, DirectSlotBootable, SlotsKept, IsRun, LeavesTrialAlone;
    OperationLeavesTrial(cfg, mem, turn);
    ValidationKept(cfg.crc, mem, turn.after, Load(cfg, mem), Load(cfg, turn.after), t.confirmed);
  }

  // ----- whole runs -----

  lemma BootSettled(cfg: Config, mem: Image, t: Trial, turn: DirectTurn)
    requires Settled(cfg, mem, t) && IsDirectRun(cfg, mem, [turn])
    ensures turn.after == mem && BootOf(cfg, mem).target == Enter(SlotOffset(t.confirmed))
  {
    hide Load, BootOf, RunWrites, Settled, CutDuring;
    SettledBoot(cfg, mem, t);
    RunOne(cfg.crc, mem, Put(Load(cfg, mem)));
    NothingToCut(cfg.crc, mem, turn.after);
  }

  lemma {:induction false} MixedSettledForGood(cfg: Config, mem: Image, t: Trial, spans: seq<Span>)
    requires Settled(cfg, mem, t) && IsMixedTrial(cfg, mem, spans)
    ensures GivenUpAfter(t, 0, EnteredIn(cfg, mem, spans))
    decreases |spans|
  {
    hide Load, BootOf, GivenUpAfter, Settled, IsRun, IsDirectRun, LeavesTrialAlone;
    if spans == [] {
      NothingEntered(t);
    } else {
      var rest := EnteredIn(cfg, AfterSpan(spans[0]), spans[1..]);
      match spans[0] {
        case Booted(turn) => BootSettled(cfg, mem, t, turn);
        case Applied(turn) => OperationSettled(cfg, mem, t, turn);
      }
      MixedSettledForGood(cfg, AfterSpan(spans[0]), t, spans[1..]);
      ConfirmedThen(t, 0, rest);
      assert [] + rest == rest;
    }
  }

  /** However often the power fails and whatever operations of that kind are performed in between, at most `left` further
      boots enter the slot on trial; the next boot goes back to the confirmed slot, and so does every boot after it. */
  lemma {:induction false} MixedTrialIsBounded(cfg: Config, mem: Image, t: Trial, left: nat, spans: seq<Span>)
    requires OnTrial(cfg, mem, t, left) && IsMixedTrial(cfg, mem, spans)
    ensures GivenUpAfter(t, left, EnteredIn(cfg, mem, spans))
    decreases |spans|
  {
    hide Load, BootOf, GivenUpAfter, Settled, OnTrial, IsRun, IsDirectRun, LeavesTrialAlone, Budget;
    if spans == [] {
      NothingEntered(t);
      LessIsEnough(t, 0, left, []);
    } else {
      var rest := EnteredIn(cfg, AfterSpan(spans[0]), spans[1..]);
      assert [] + rest == rest;
      match spans[0] {
        case Applied(turn) =>
          OperationOnTrial(cfg, mem, t, left, turn);
          MixedTrialIsBounded(cfg, turn.after, t, left, spans[1..]);
        case Booted(turn) =>
          TrialCycle(cfg, mem, t, left, turn);
          if !turn.completed && OnTrial(cfg, turn.after, t, left) {
            MixedTrialIsBounded(cfg, turn.after, t, left, spans[1..]);
          } else {
            BootIsUsed(cfg, mem, t, left, spans);
          }
      }
    }
  }

  lemma BootIsUsed(cfg: Config, mem: Image, t: Trial, left: nat, spans: seq<Span>)
    requires OnTrial(cfg, mem, t, left) && spans != [] && spans[0].Booted? && IsMixedTrial(cfg, mem, spans)
    requires if Budget(cfg.crc, mem, Load(cfg, mem)) > 0 then left > 0 && OnTrial(cfg, spans[0].boot.after, t, left - 1)
             else Settled(cfg, spans[0].boot.after, t)
    ensures GivenUpAfter(t, left, EnteredIn(cfg, mem, spans))
    decreases |spans|, 0
  {
    hide Load, BootOf, GivenUpAfter, Settled, IsRun, IsDirectRun, Budget, LogInv, Running, DirectSlotBootable, TrialRecord;
    var after := spans[0].boot.after;
    var rest := EnteredIn(cfg, after, spans[1..]);
    assert [] + rest == rest;
    TrialBoot(cfg, mem, t, left);
    if Budget(cfg.crc, mem, Load(cfg, mem)) > 0 {
      MixedTrialIsBounded(cfg, after, t, left - 1, spans[1..]);
      TrialThen(t, left, rest);
      LessIsEnough(t, left - 1, left, rest);
    } else {
      MixedSettledForGood(cfg, after, t, spans[1..]);
      ConfirmedThen(t, left, rest);
      LessIsEnough(t, 0, left, rest);
    }
  }
}
