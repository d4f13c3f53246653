/** An image pending in copy mode while the application runs in between: boots and operations on the metadata, each
    completed or cut by a power loss. */
module MixedRuns {
  import opened Outcomes
  import opened Flash
  import opened Metadata
  import opened Partition
  import opened MetadataLog
  import opened MetadataRegister
  import opened BootPlan
  import opened PowerLoss
  import opened CopyRuns
  import opened CopyConverges

  // ----- what the application may do -----

  /** An operation that neither asks for another image nor for another boot mode, nor claims that the copy is done. */
  predicate LeavesJobAlone(op: Op) {
    !op.MarkPendingOp? && !op.SetBootModeOp? && !op.FinishCopyOp? && !(op.UpdateCopyOp? && op.state == TXN_DONE)
  }

  function Puts(records: seq<Metadata>): seq<Write> {
    if records == [] then [] else [Put(records[0])] + Puts(records[1..])
  }

  lemma {:induction false} PutsAreAllOps(crc: Crc, records: seq<Metadata>)
    ensures ExpandAll(crc, Puts(records)) == AllOps(crc, records)
    decreases |records|
  {
    hide StoreOps;
    if records != [] {
      PutsAreAllOps(crc, records[1..]);
      assert Puts(records)[1..] == Puts(records[1..]);
    }
  }

  /** A boot, or an operation of the application, with the image it leaves and the slot erasures begun in it. */
  datatype Doing = Booting | Applying(op: Op)

  datatype Span = Span(doing: Doing, after: Image, wiped: nat)

  function WritesOf(cfg: Config, mem: Image, doing: Doing): seq<Write> {
    match doing
    case Booting => BootOf(cfg, mem).writes
    case Applying(op) => Puts(Records(cfg.crc, op, Load(cfg, mem)))
  }

  ghost predicate IsMixedRun(cfg: Config, mem: Image, spans: seq<Span>)
    decreases |spans|
  {
    spans == [] ||
    (var s, ws := spans[0], WritesOf(cfg, mem, spans[0].doing);
     && (s.doing.Applying? ==> LeavesJobAlone(s.doing.op))
     && Recordable(cfg.crc, Load(cfg, mem), ws)
     && CutWrites(cfg.crc, mem, ws, s.after, s.wiped)
     && IsMixedRun(cfg, s.after, spans[1..]))
  }

  function Wiped(spans: seq<Span>): nat { if spans == [] then 0 else spans[0].wiped + Wiped(spans[1..]) }

  function LastImage(mem: Image, spans: seq<Span>): Image { if spans == [] then mem else spans[|spans| - 1].after }

  // ----- while the job is pending -----

  /** Each operation that leaves the job alone stores records that may follow while the job is pending. */
  lemma PendingOperation(crc: Crc, job: Job, op: Op, m: Metadata)
    requires Keeps(job, m) && WellShaped(m) && LeavesJobAlone(op) && Mutate(crc, op, m).Some?
    ensures PutOk(crc, job, m, Mutate(crc, op, m).value) && WellShaped(Mutate(crc, op, m).value)
  {
    OperationsFollow(crc, op, m);
    hide Follows, UpdateCrc, WellShaped;
  }

  lemma PendingRecords(crc: Crc, job: Job, op: Op, m: Metadata, e: nat)
    requires Keeps(job, m) && WellShaped(m) && LeavesJobAlone(op)
    ensures exists last :: Body(crc, job, m, e, Puts(Records(crc, op, m)), last, e)
  {
    hide Keeps, PutOk, Mutate, WellShaped, LeavesJobAlone;
    match Mutate(crc, op, m) {
      case None =>
        assert Records(crc, op, m) == [];
        assert Body(crc, job, m, e, Puts([]), m, e);
      case Some(r) =>
        PendingOperation(crc, job, op, m);
        OneRecord(crc, job, m, e, r);
        assert !op.RepairCopies? ==> Records(crc, op, m) == [r];
        if op.RepairCopies? {
          KeptByPut(crc, job, m, r);
          RepairIsAlone(crc, r);
          PendingOperation(crc, job, RepairCopies, r);
          assert Records(crc, op, m) == [r, Committed(crc, r)];
          TwoRecords(crc, job, m, e, r, Committed(crc, r));
        }
    }
  }

  lemma RepairIsAlone(crc: Crc, m: Metadata)
    ensures LeavesJobAlone(RepairCopies) && Mutate(crc, RepairCopies, m) == Some(Committed(crc, m))
  {
  }

  lemma KeptByPut(crc: Crc, job: Job, m: Metadata, r: Metadata)
    requires PutOk(crc, job, m, r)
    ensures Keeps(job, r)
  {
  }

  lemma OneRecord(crc: Crc, job: Job, m: Metadata, e: nat, r: Metadata)
    requires PutOk(crc, job, m, r)
    ensures Puts([r]) == [Put(r)] && Body(crc, job, m, e, Puts([r]), r, e)
  {
    hide PutOk;
    assert [r][1..] == [] && [Put(r)][1..] == [];
    assert Body(crc, job, r, e, [], r, e);
  }

  lemma TwoRecords(crc: Crc, job: Job, m: Metadata, e: nat, r: Metadata, s: Metadata)
    requires PutOk(crc, job, m, r) && PutOk(crc, job, r, s)
    ensures Body(crc, job, m, e, Puts([r, s]), s, e)
  {
    hide PutOk;
    OneRecord(crc, job, r, e, s);
    assert [r, s][1..] == [s];
    assert Puts([r, s])[1..] == Puts([s]);
  }

  // ----- once the image is in use -----

  /** The job's image is the one to run, whether or not it has been confirmed since. */
  ghost predicate Runs(job: Job, m: Metadata) {
    && m.ab.bootMode != MODE_DIRECT_AB && m.core.pendingSlot == SLOT_NONE
    && m.core.activeSlot == SLOT_A && m.core.confirmedSlot == SLOT_A
    && m.core.slotASize == job.size && m.core.slotACrc32 == job.imageCrc
    && m.core.bootAttempts == 0 && m.core.lastBootResult == RESULT_APPLIED
  }

  ghost predicate InUse(cfg: Config, mem: Image, job: Job) {
    LogInv(cfg.crc, mem) && Staged(mem, job) && Runs(job, Load(cfg, mem)) && Installed(mem, job)
  }

  lemma AppliedIsInUse(cfg: Config, mem: Image, job: Job)
    requires Applied(cfg, mem, job)
    ensures InUse(cfg, mem, job)
  {
  }

  lemma OperationInUse(crc: Crc, job: Job, op: Op, m: Metadata)
    requires Runs(job, m) && LeavesJobAlone(op) && Mutate(crc, op, m).Some?
    ensures Runs(job, Mutate(crc, op, m).value)
  {
  }

  /** Records stored one after the other that all have the job's image run. */
  ghost predicate Stays(crc: Crc, job: Job, cur: Metadata, records: seq<Metadata>)
    decreases |records|
  {
    records == [] || (Follows(crc, cur, records[0]) && Runs(job, records[0]) && Stays(crc, job, records[0], records[1..]))
  }

  lemma RecordsInUse(crc: Crc, job: Job, op: Op, m: Metadata)
    requires Runs(job, m) && WellShaped(m) && LeavesJobAlone(op)
    ensures Stays(crc, job, m, Records(crc, op, m))
  {
    hide Mutate, Runs, LeavesJobAlone, WellShaped, Follows;
    if Mutate(crc, op, m).Some? {
      var r := Mutate(crc, op, m).value;
      OperationsFollow(crc, op, m);
      OperationInUse(crc, job, op, m);
      assert [r][1..] == [];
      if op.RepairCopies? {
        var s := Committed(crc, r);
        RepairIsAlone(crc, r);
        OperationsFollow(crc, RepairCopies, r);
        OperationInUse(crc, job, RepairCopies, r);
        assert [r, s][1..] == [s] && [s][1..] == [];
        assert Stays(crc, job, r, [s]);
      }
    }
  }

  lemma StoreInUse(cfg: Config, mem: Image, job: Job, r: Metadata, after: Image)
    requires InUse(cfg, mem, job) && Runs(job, r) && Storable(cfg.crc, Load(cfg, mem), r)
    ensures CutDuring(cfg.crc, mem, StoreOps(cfg.crc, r), after) ==> InUse(cfg, after, job)
    ensures var mem1 := Apply(mem, StoreOps(cfg.crc, r)); InUse(cfg, mem1, job) && Load(cfg, mem1) == r
  {
    hide LogInv, Load, StoreOps, CutDuring, Apply, Storable, Installed, Staged, SlotsKept, Runs;
    DurableComplete(cfg, mem, r);
    SlotsKeptParts(mem, Apply(mem, StoreOps(cfg.crc, r)), job);
    if CutDuring(cfg.crc, mem, StoreOps(cfg.crc, r), after) {
      DurableStep(cfg, mem, r, after);
      SlotsKeptParts(mem, after, job);
    }
  }

  /** However the power fails while they are stored, the image stays in use and no slot is erased. */
  lemma {:induction false} StayingCut(cfg: Config, mem: Image, job: Job, records: seq<Metadata>, after: Image, wiped: nat)
    requires InUse(cfg, mem, job) && Stays(cfg.crc, job, Load(cfg, mem), records)
    requires Recordable(cfg.crc, Load(cfg, mem), Puts(records)) && CutWrites(cfg.crc, mem, Puts(records), after, wiped)
    ensures InUse(cfg, after, job) && wiped == 0
    decreases |records|
  {
    hide Load, StoreOps, Apply, CutDuring, Recordable, Storable, CutWrites, InUse, Follows, Runs;
    if records == [] {
      CutOfNothing(cfg.crc, mem, after, wiped);
    } else {
      var r := records[0];
      var ws := Puts(records);
      assert ws[1..] == Puts(records[1..]);
      InUseIsShaped(cfg, mem, job);
      RecordableNext(cfg.crc, Load(cfg, mem), ws);
      StoreInUse(cfg, mem, job, r, after);
      CutAtPut(cfg.crc, mem, ws, after, wiped);
      var mem1 := Apply(mem, StoreOps(cfg.crc, r));
      if CutWrites(cfg.crc, mem1, ws[1..], after, wiped) {
        StayingCut(cfg, mem1, job, records[1..], after, wiped);
      }
    }
  }

  lemma InUseIsShaped(cfg: Config, mem: Image, job: Job)
    requires InUse(cfg, mem, job)
    ensures WellShaped(Load(cfg, mem)) && Runs(job, Load(cfg, mem)) && Staged(mem, job) && Installed(mem, job)
  {
    hide Load, LogInv, Runs, Staged, Installed, WellShaped;
    LoadIsShaped(cfg, mem);
  }

  /** A boot of an image in use writes nothing, and enters it exactly when it validates. */
  lemma BootInUse(cfg: Config, mem: Image, job: Job)
    requires InUse(cfg, mem, job)
    ensures BootOf(cfg, mem).writes == []
    ensures job.size != 0 ==> (BootOf(cfg, mem).target == Enter(SLOT_A_OFFSET) <==> ValidActive(cfg.crc, mem, job))
  {
    hide LogInv, Load, Staged, Installed, ValidateSlotAt, RunWrites;
    RunOne(cfg.crc, mem, Put(Load(cfg, mem)));
  }

  // ----- whole runs -----

  ghost predicate Underway(cfg: Config, mem: Image, job: Job, e: nat) {
    Pending(cfg, mem, job, e) || (InUse(cfg, mem, job) && e <= MAX_BOOT_ATTEMPTS)
  }

  lemma BootSpan(cfg: Config, mem: Image, job: Job, e: nat, after: Image, wiped: nat)
    requires Underway(cfg, mem, job, e)
    requires Recordable(cfg.crc, Load(cfg, mem), BootOf(cfg, mem).writes)
    requires CutWrites(cfg.crc, mem, BootOf(cfg, mem).writes, after, wiped)
    ensures Underway(cfg, after, job, e + wiped)
  {
    hide Load, Pending, InUse, Applied, BootOf, CutWrites, Recordable;
    if Pending(cfg, mem, job, e) {
      CycleKeepsJob(cfg, mem, job, e, after, wiped);
      if Applied(cfg, after, job) { AppliedIsInUse(cfg, after, job); }
    } else {
      BootInUse(cfg, mem, job);
      CutOfNothing(cfg.crc, mem, after, wiped);
    }
  }

  lemma OperationSpan(cfg: Config, mem: Image, job: Job, e: nat, op: Op, after: Image, wiped: nat)
    requires Underway(cfg, mem, job, e) && LeavesJobAlone(op)
    requires Recordable(cfg.crc, Load(cfg, mem), Puts(Records(cfg.crc, op, Load(cfg, mem))))
    requires CutWrites(cfg.crc, mem, Puts(Records(cfg.crc, op, Load(cfg, mem))), after, wiped)
    ensures Underway(cfg, after, job, e + wiped)
  {
    hide Load, Pending, InUse, CutWrites, Recordable, LeavesJobAlone, Records, Puts, Body, WellShaped, Keeps, Runs;
    var records := Records(cfg.crc, op, Load(cfg, mem));
    if Pending(cfg, mem, job, e) {
      PendingIsShaped(cfg, mem, job, e);
      PendingRecords(cfg.crc, job, op, Load(cfg, mem), e);
      var last :| Body(cfg.crc, job, Load(cfg, mem), e, Puts(records), last, e);
      BodyCut(cfg, mem, job, e, Puts(records), last, e, after, wiped);
    } else {
      InUseIsShaped(cfg, mem, job);
      RecordsInUse(cfg.crc, job, op, Load(cfg, mem));
      StayingCut(cfg, mem, job, records, after, wiped);
    }
  }

  lemma PendingIsShaped(cfg: Config, mem: Image, job: Job, e: nat)
    requires Pending(cfg, mem, job, e)
    ensures WellShaped(Load(cfg, mem)) && Keeps(job, Load(cfg, mem)) && Staged(mem, job)
  {
    hide Load, LogInv, Keeps, Staged, Installed, WellShaped;
    LoadIsShaped(cfg, mem);
  }

  /** Boots and operations that leave the job alone, in any order and cut anywhere: the staged image is intact and asked
      for until it is in use, then it stays in use, and every erasure of slot A has been paid for by a stored attempt. */
  lemma {:induction false} MixedRunsKeepTheJob(cfg: Config, mem: Image, job: Job, e: nat, spans: seq<Span>)
    requires Underway(cfg, mem, job, e) && IsMixedRun(cfg, mem, spans)
    ensures Underway(cfg, LastImage(mem, spans), job, e + Wiped(spans))
    decreases |spans|
  {
    hide Load, Underway, BootOf, CutWrites, Recordable, LeavesJobAlone, Records, Puts;
    if spans != [] {
      var s := spans[0];
      match s.doing {
        case Booting => BootSpan(cfg, mem, job, e, s.after, s.wiped);
        case Applying(op) => OperationSpan(cfg, mem, job, e, op, s.after, s.wiped);
      }
      MixedRunsKeepTheJob(cfg, s.after, job, e + s.wiped, spans[1..]);
      assert LastImage(mem, spans) == LastImage(s.after, spans[1..]);
    }
  }

  /** So slot A is erased at most three times for one pending image, whatever the application does in between. */
  lemma AtMostThreeErasuresInMixedRuns(cfg: Config, mem: Image, job: Job, spans: seq<Span>)
    requires Pending(cfg, mem, job, 0) && IsMixedRun(cfg, mem, spans)
    ensures Wiped(spans) <= MAX_BOOT_ATTEMPTS
  {
    hide Pending, InUse, IsMixedRun;
    MixedRunsKeepTheJob(cfg, mem, job, 0, spans);
    if Pending(cfg, LastImage(mem, spans), job, Wiped(spans)) {
      PendingIsInJob(cfg, LastImage(mem, spans), job, Wiped(spans));
    }
  }

  /** And after any such run one uninterrupted boot, with an attempt left or the image in use, enters the new image. */
  lemma MixedRunThenBoot(cfg: Config, mem: Image, job: Job, spans: seq<Span>)
    requires Pending(cfg, mem, job, 0) && ValidStage(cfg.crc, mem, job) && IsMixedRun(cfg, mem, spans)
    requires var last := LastImage(mem, spans);
             Recordable(cfg.crc, Load(cfg, last), BootOf(cfg, last).writes)
             && (InUse(cfg, last, job) || CanFinish(Load(cfg, last)))
    ensures BootOf(cfg, LastImage(mem, spans)).target == Enter(SLOT_A_OFFSET)
  {
    hide Load, BootOf, RunWrites, IsMixedRun, Recordable, CanFinish, ValidStage, ValidActive, Pending, InUse, Staged, Applied;
    var last, e := LastImage(mem, spans), Wiped(spans);
    MixedRunsKeepTheJob(cfg, mem, job, 0, spans);
    PendingIsShaped(cfg, mem, job, 0);
    if InUse(cfg, last, job) {
      InUseIsShaped(cfg, last, job);
      StagedValidatesAlike(cfg.crc, mem, last, job);
      InstalledValidatesIff(cfg.crc, last, last, job);
      ValidFits(cfg.crc, last, job);
      BootInUse(cfg, last, job);
    } else {
      PendingIsShaped(cfg, last, job, e);
      StagedValidatesAlike(cfg.crc, mem, last, job);
      UninterruptedBootAppliesIff(cfg, last, job, e);
    }
  }
}
