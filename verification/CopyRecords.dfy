/** What the records of a copy-to-active update say, boot by boot: which image a finished transaction is of, where a crash after
    it resumes, the trail a whole update leaves in the log, and what a refused one reports. */
module CopyRecords {
  import opened Bytes
  import opened Flash
  import opened Metadata
  import opened Partition
  import opened MetadataLog
  import opened MetadataRegister
  import opened BootPlan
  import opened PowerLoss
  import opened CopyRuns
  import opened CopyConverges

  // ----- what a finished transaction is of -----

  ghost predicate NoneDone(ws: seq<Write>) {
    forall i :: 0 <= i < |ws| && ws[i].Put? ==> ws[i].record.ext.copyTxnState != TXN_DONE
  }

  /** Every record that says a transaction is done says so of the image that is pending. */
  ghost predicate DoneTruly(ws: seq<Write>) {
    forall i :: 0 <= i < |ws| && ws[i].Put? && ws[i].record.ext.copyTxnState == TXN_DONE ==> SaysDone(ws[i].record)
  }

  lemma {:induction false} BodyNotDone(crc: Crc, job: Job, cur: Metadata, e: nat, ws: seq<Write>, last: Metadata, f: nat)
    requires Body(crc, job, cur, e, ws, last, f) && cur.ext.copyTxnState != TXN_DONE
    ensures NoneDone(ws) && last.ext.copyTxnState != TXN_DONE
    decreases |ws|
  {
    hide Follows, Keeps, RawOk;
    if ws != [] {
      var next := if ws[0].Put? then ws[0].record else cur;
      BodyNotDone(crc, job, next, e + Wipes(ws[0]), ws[1..], last, f);
      assert forall i :: 0 < i < |ws| ==> ws[i] == ws[1..][i - 1];
    }
  }

  lemma {:induction false} TailDoneTruly(crc: Crc, job: Job, cur: Metadata, ws: seq<Write>, last: Metadata)
    requires Tail(crc, job, cur, ws, last)
    ensures DoneTruly(ws)
    decreases |ws|
  {
    hide Follows, Keeps, SaysDone;
    if ws != [] {
      if ws == [ws[0]] {
        assert SaysApplied(job, ws[0].record) || SaysDone(ws[0].record);
      } else {
        TailDoneTruly(crc, job, ws[0].record, ws[1..], last);
        assert forall i :: 0 < i < |ws| ==> ws[i] == ws[1..][i - 1];
      }
    }
  }

  lemma TrulyConcat(a: seq<Write>, b: seq<Write>)
    requires NoneDone(a) || DoneTruly(a)
    requires DoneTruly(b)
    ensures DoneTruly(a + b)
  {
    hide SaysDone;
    forall i | 0 <= i < |a + b| && (a + b)[i].Put? && (a + b)[i].record.ext.copyTxnState == TXN_DONE ensures SaysDone((a + b)[i].record) {
      if i < |a| { assert (a + b)[i] == a[i]; } else { assert (a + b)[i] == b[i - |a|]; }
    }
  }

  lemma SafeDoneTruly(cfg: Config, mem: Image, job: Job, m: Metadata, e: nat, p: Plan)
    requires Safe(cfg, mem, job, m, e, p) && m.ext.copyTxnState != TXN_DONE
    ensures DoneTruly(p.writes)
  {
    hide Body, Tail, Installed, Keeps, NoneDone, DoneTruly;
    var body, mid, f: nat, tail :| Splits(cfg, mem, job, m, e, p, body, mid, f, tail);
    BodyNotDone(cfg.crc, job, m, e, body, mid, f);
    TailDoneTruly(cfg.crc, job, mid, tail, p.metadata);
    TrulyConcat(body, tail);
  }

  /** Records only, all with the transaction in this state. */
  ghost predicate AllIn(ws: seq<Write>, state: u32) {
    forall i :: 0 <= i < |ws| ==> ws[i].Put? && ws[i].record.ext.copyTxnState == state
  }

  /** A failure is marked in the transaction, if there is one it can be marked in, and else the transaction is left as it is. */
  lemma FailureMarks(crc: Crc, job: Job, m: Metadata, result: u32, written: u32)
    requires Keeps(job, m)
    ensures var p := StoreCopyFailure(crc, m, result, written);
            && AllIn(p.writes, if m.ext.copyTxnState != TXN_NONE && written <= m.ext.copySize then TXN_FAILED else m.ext.copyTxnState)
            && (CopyTransactionMatches(m) ==> DoneTruly(p.writes))
            && (m.ext.copyTxnState != TXN_NONE && written <= m.ext.copySize ==>
                  p.metadata.ext.copyTxnState == TXN_FAILED && p.metadata.ext.copyLastError == result && p.metadata.ext.copyWritten == written)
            && p.metadata.core.bootAttempts == m.core.bootAttempts
  {
  }

  /** Whatever a pending boot finds, each record it writes that says a transaction is done says so of the pending image, unless
      it found another done transaction with more bytes written than its image has, which no operation records. */
  lemma DoneRecordsMatch(cfg: Config, mem: Image, job: Job, m: Metadata)
    requires Keeps(job, m) && Staged(mem, job)
    requires m.ext.copyTxnState == TXN_DONE && !CopyTransactionMatches(m) ==> m.ext.copyWritten <= m.ext.copySize
    ensures DoneTruly(ApplyPending(cfg, mem, m).writes)
  {
    hide RunWrites, StoreCopyFailure, StoreCopyTransaction, ValidateSlotAt, ApplyCopyToActiveDone, CountAndCopy, Staged, Follows,
      CopyTransactionMatches, SlotsKept, Safe, Tail, DoneTruly;
    if m.ext.copyTxnState == TXN_DONE && CopyTransactionMatches(m)
       && ValidateSlotAsSlotA(cfg.crc, mem, SLOT_A, job.size, job.imageCrc) {
      var p := Stored(ApplyCopyToActiveDone(cfg.crc, m, SLOT_B, SLOT_A), m);
      SwitchIsTail(cfg.crc, job, m);
      TailDoneTruly(cfg.crc, job, m, p.writes, p.metadata);
    } else if job.size == 0 || m.core.bootAttempts >= MAX_BOOT_ATTEMPTS {
      FailureMarks(cfg.crc, job, m, RESULT_MAX_ATTEMPTS, m.ext.copyWritten);
      NotDoneIsTruly(StoreCopyFailure(cfg.crc, m, RESULT_MAX_ATTEMPTS, m.ext.copyWritten).writes);
    } else {
      StartedDoneTruly(cfg, mem, job, m);
    }
  }

  lemma NotDoneIsTruly(ws: seq<Write>)
    ensures NoneDone(ws) ==> DoneTruly(ws)
  {
  }

  lemma StartedDoneTruly(cfg: Config, mem: Image, job: Job, m: Metadata)
    requires Keeps(job, m) && Staged(mem, job) && job.size != 0 && m.core.bootAttempts < MAX_BOOT_ATTEMPTS
    ensures var started := StoreCopyTransaction(cfg.crc, m, TXN_STARTED, 0, RESULT_NONE);
            && started.ok && started.writes == [Put(started.metadata)] && started.metadata.ext.copyTxnState == TXN_STARTED
            && CopyTransactionMatches(started.metadata) && Keeps(job, started.metadata)
            && started.metadata.core.bootAttempts == m.core.bootAttempts
            && Staged(RunWrites(cfg.crc, mem, started.writes), job)
            && DoneTruly(started.writes + CountAndCopy(cfg, RunWrites(cfg.crc, mem, started.writes), started.metadata).writes)
  {
    hide RunWrites, StoreCopyTransaction, CountAndCopy, Staged, Follows, SlotsKept, Safe, DoneTruly, CopyTransactionMatches;
    StartedUnder(cfg.crc, job, m);
    TransactionFollows(cfg.crc, m, TXN_STARTED, 0, RESULT_NONE);
    var started := StoreCopyTransaction(cfg.crc, m, TXN_STARTED, 0, RESULT_NONE);
    var mem1 := RunWrites(cfg.crc, mem, started.writes);
    TransactionKeepsSlots(cfg.crc, mem, m, TXN_STARTED, 0, RESULT_NONE);
    SlotsKeptParts(mem, mem1, job);
    CountSafe(cfg, mem1, job, started.metadata, 0);
    SafeDoneTruly(cfg, mem1, job, started.metadata, 0, CountAndCopy(cfg, mem1, started.metadata));
    TrulyConcat(started.writes, CountAndCopy(cfg, mem1, started.metadata).writes);
  }

  // ----- a crash after the transaction is done -----

  /** All that is left to do is to record the image as applied, if that has not been done either. */
  ghost predicate Finishing(cfg: Config, mem: Image, job: Job) {
    && ValidStage(cfg.crc, mem, job)
    && (Applied(cfg, mem, job) || (Pending(cfg, mem, job, 0) && SaysDone(Load(cfg, mem))))
  }

  /** How many erasures have been counted does not matter any more. */
  lemma CountedIsPending(cfg: Config, mem: Image, job: Job, e: nat)
    requires Pending(cfg, mem, job, e)
    ensures Pending(cfg, mem, job, 0)
  {
    hide LogInv, Load, Staged, Installed, Keeps;
  }

  /** The boot that finishes writes one record at most and no byte of a slot, whatever the attempts, and enters the image. */
  lemma FinishingBoot(cfg: Config, mem: Image, job: Job)
    requires Finishing(cfg, mem, job)
    ensures var ws := BootOf(cfg, mem).writes;
            && |ws| <= 1 && OnlyRecords(ws) && (ws == [] <==> Applied(cfg, mem, job))
            && (ws != [] ==> SaysApplied(job, ws[0].record) && Follows(cfg.crc, Load(cfg, mem), ws[0].record)
                             && Pending(cfg, mem, job, 0) && Installed(mem, job))
            && (Recordable(cfg.crc, Load(cfg, mem), ws) ==>
                  BootOf(cfg, mem).target == Enter(SLOT_A_OFFSET) && Applied(cfg, RunWrites(cfg.crc, mem, ws), job))
  {
    hide LogInv, Load, Staged, Installed, ValidStage, BootOf, RunWrites, Safe, SaysDone, ApplyPending, Keeps, SaysApplied, Recordable, Follows;
    if Applied(cfg, mem, job) {
      AppliedBoot(cfg, mem, job);
      AppliedStays(cfg, mem, job);
    } else {
      PendingBoot(cfg, mem, job, 0);
      FinishingPlan(cfg, mem, job, Load(cfg, mem));
      if Recordable(cfg.crc, Load(cfg, mem), BootOf(cfg, mem).writes) { UninterruptedBootAppliesIff(cfg, mem, job, 0); }
    }
  }

  lemma FinishingPlan(cfg: Config, mem: Image, job: Job, m: Metadata)
    requires Keeps(job, m) && SaysDone(m) && Installed(mem, job) && Staged(mem, job) && ValidStage(cfg.crc, mem, job)
    ensures var p := ApplyPending(cfg, mem, m);
            p.writes == [Put(p.metadata)] && SaysApplied(job, p.metadata) && Follows(cfg.crc, m, p.metadata)
  {
    hide ValidStage, Staged, Installed, ApplyPending, SaysDone;
    ValidFits(cfg.crc, mem, job);
    DoneResumes(cfg, mem, job, m);
    SwitchIsTail(cfg.crc, job, m);
  }

  /** Wherever the power fails in it, nothing is erased and the next boot can still finish. */
  lemma FinishingCut(cfg: Config, mem: Image, job: Job, after: Image, wiped: nat)
    requires Finishing(cfg, mem, job) && Recordable(cfg.crc, Load(cfg, mem), BootOf(cfg, mem).writes)
    requires CutWrites(cfg.crc, mem, BootOf(cfg, mem).writes, after, wiped)
    ensures Finishing(cfg, after, job) && wiped == 0
  {
    hide LogInv, Load, Staged, Installed, ValidStage, BootOf, SaysDone, Keeps, SaysApplied, Recordable, Follows, StoreOps, Apply, CutDuring,
      CutWrites, Storable, SlotsKept;
    FinishingBoot(cfg, mem, job);
    var ws := BootOf(cfg, mem).writes;
    if ws == [] {
      CutOfNothing(cfg.crc, mem, after, wiped);
    } else {
      var r := ws[0].record;
      assert ws == [Put(r)] && ws[1..] == [];
      LoadIsShaped(cfg, mem);
      RecordableNext(cfg.crc, Load(cfg, mem), ws);
      CutAtPut(cfg.crc, mem, ws, after, wiped);
      if !(after == mem && wiped == 0) {
        if !(CutDuring(cfg.crc, mem, StoreOps(cfg.crc, r), after) && wiped == 0) {
          CutOfNothing(cfg.crc, Apply(mem, StoreOps(cfg.crc, r)), after, wiped);
          WholeIsCut(cfg, mem, r);
        }
        StoringKeepsFinishing(cfg, mem, job, r, after);
      }
    }
  }

  lemma WholeIsCut(cfg: Config, mem: Image, r: Metadata)
    requires Storable(cfg.crc, Load(cfg, mem), r)
    ensures CutDuring(cfg.crc, mem, StoreOps(cfg.crc, r), Apply(mem, StoreOps(cfg.crc, r)))
  {
    hide Load, Sealed, WellShaped, Distinct;
    StoreComplete(cfg.crc, mem, r);
  }

  lemma StoringKeepsFinishing(cfg: Config, mem: Image, job: Job, r: Metadata, after: Image)
    requires Finishing(cfg, mem, job) && Pending(cfg, mem, job, 0) && Installed(mem, job)
    requires Storable(cfg.crc, Load(cfg, mem), r) && SaysApplied(job, r) && CutDuring(cfg.crc, mem, StoreOps(cfg.crc, r), after)
    ensures Finishing(cfg, after, job)
  {
    hide LogInv, Load, Staged, Installed, ValidStage, SaysDone, Keeps, SaysApplied, StoreOps, CutDuring, Storable, SlotsKept;
    NotBoth(cfg, mem, job);
    DurableStep(cfg, mem, r, after);
    SlotsKeptParts(mem, after, job);
    StagedValidatesAlike(cfg.crc, mem, after, job);
  }

  lemma NotBoth(cfg: Config, mem: Image, job: Job)
    requires Finishing(cfg, mem, job) && Pending(cfg, mem, job, 0)
    ensures SaysDone(Load(cfg, mem)) && Staged(mem, job) && Keeps(job, Load(cfg, mem)) && ValidStage(cfg.crc, mem, job)
  {
    hide LogInv, Load, Staged, Installed, ValidStage;
  }

  /** In every boot of the run only records are written. */
  ghost predicate OnlyRecordsInRun(cfg: Config, mem: Image, cycles: seq<Cycle>)
    decreases |cycles|
  {
    cycles == [] || (OnlyRecords(BootOf(cfg, mem).writes) && OnlyRecordsInRun(cfg, cycles[0].after, cycles[1..]))
  }

  lemma {:induction false} OnceDoneRun(cfg: Config, mem: Image, job: Job, cycles: seq<Cycle>)
    requires Finishing(cfg, mem, job) && IsBootRun(cfg, mem, cycles)
    ensures Finishing(cfg, Final(mem, cycles), job) && Erasures(cycles) == 0 && OnlyRecordsInRun(cfg, mem, cycles)
    decreases |cycles|
  {
    hide Finishing, BootOf, CutWrites, Recordable, Load, OnlyRecords;
    if cycles != [] {
      FinishingOnlyRecords(cfg, mem, job);
      FinishingCut(cfg, mem, job, cycles[0].after, cycles[0].wiped);
      OnceDoneRun(cfg, cycles[0].after, job, cycles[1..]);
      assert Final(mem, cycles) == Final(cycles[0].after, cycles[1..]);
    }
  }

  lemma FinishingOnlyRecords(cfg: Config, mem: Image, job: Job)
    requires Finishing(cfg, mem, job)
    ensures OnlyRecords(BootOf(cfg, mem).writes)
  {
    hide Finishing, BootOf, Load, Recordable, Applied, Pending;
    FinishingBoot(cfg, mem, job);
  }

  /** Once the log says that the transaction of a valid image is done, no power cycle erases or programs a slot again, even with
      the attempts used up; and the next boot that is not cut records the image as applied and enters it. */
  lemma OnceDoneNeverCopiedAgain(cfg: Config, mem: Image, job: Job, e: nat, cycles: seq<Cycle>)
    requires Pending(cfg, mem, job, e) && SaysDone(Load(cfg, mem)) && ValidStage(cfg.crc, mem, job) && IsBootRun(cfg, mem, cycles)
    ensures Erasures(cycles) == 0 && OnlyRecordsInRun(cfg, mem, cycles)
    ensures var last := Final(mem, cycles);
            var ws := BootOf(cfg, last).writes;
            && OnlyRecords(ws)
            && (Recordable(cfg.crc, Load(cfg, last), ws) ==>
                  BootOf(cfg, last).target == Enter(SLOT_A_OFFSET) && Applied(cfg, RunWrites(cfg.crc, last, ws), job))
  {
    hide IsBootRun, BootOf, Load, Recordable, Applied, RunWrites, Pending, ValidStage, SaysDone, OnlyRecordsInRun, Erasures;
    CountedIsPending(cfg, mem, job, e);
    OnceDoneRun(cfg, mem, job, cycles);
    FinishingBoot(cfg, Final(mem, cycles), job);
  }

  // ----- the boot that gets there -----

  /** A safe plan that ends with the image applied, from a record that is not done, stores last of all a record that says done of
      this image and then one that says applied. */
  lemma EndsDoneApplied(cfg: Config, mem: Image, job: Job, m: Metadata, e: nat, p: Plan) returns (body: seq<Write>, mid: Metadata, f: nat, done: Metadata)
    requires Safe(cfg, mem, job, m, e, p) && m.ext.copyTxnState != TXN_DONE && SaysApplied(job, p.metadata)
    ensures p.writes == body + [Put(done), Put(p.metadata)]
    ensures Carries(cfg.crc, job, m, e, Plan(body, mid, true), f) && NoneDone(body) && Installed(RunWrites(cfg.crc, mem, body), job)
    ensures Keeps(job, done) && SaysDone(done) && Follows(cfg.crc, mid, done) && mid.core.bootAttempts <= done.core.bootAttempts
  {
    hide Installed, RunWrites, Carries, Follows, NoneDone, Body;
    var tail: seq<Write>;
    body, mid, f, tail :| Splits(cfg, mem, job, m, e, p, body, mid, f, tail);
    CarriedBody(cfg.crc, job, m, e, body, mid, f);
    TailIsTwo(cfg.crc, job, mid, tail, p.metadata);
    done := tail[0].record;
  }

  lemma CarriedBody(crc: Crc, job: Job, m: Metadata, e: nat, body: seq<Write>, mid: Metadata, f: nat)
    requires Carries(crc, job, m, e, Plan(body, mid, true), f) && m.ext.copyTxnState != TXN_DONE
    ensures NoneDone(body) && mid.ext.copyTxnState != TXN_DONE && Keeps(job, mid)
  {
    hide Keeps, NoneDone, Body;
    BodyNotDone(crc, job, m, e, body, mid, f);
  }

  lemma TailIsTwo(crc: Crc, job: Job, cur: Metadata, ws: seq<Write>, last: Metadata)
    requires Tail(crc, job, cur, ws, last) && cur.ext.copyTxnState != TXN_DONE && Keeps(job, cur) && SaysApplied(job, last)
    ensures |ws| == 2 && ws[0].Put? && ws[1] == Put(last)
    ensures Keeps(job, ws[0].record) && SaysDone(ws[0].record) && Follows(crc, cur, ws[0].record)
    ensures cur.core.bootAttempts <= ws[0].record.core.bootAttempts
  {
    hide Follows;
    var done := ws[0].record;
    assert Tail(crc, job, done, ws[1..], last);
  }

  /** A pending boot of a valid image, with an attempt left, that is not cut: just before its last record the log says of this very
      image that its transaction is done, with the image installed. So a power loss from there on is one that resumes. */
  lemma BootPassesDone(cfg: Config, mem: Image, job: Job, e: nat) returns (f: nat)
    requires Pending(cfg, mem, job, e) && ValidStage(cfg.crc, mem, job)
    requires !SaysDone(Load(cfg, mem)) && Load(cfg, mem).core.bootAttempts < MAX_BOOT_ATTEMPTS
    requires Recordable(cfg.crc, Load(cfg, mem), BootOf(cfg, mem).writes)
    ensures var ws := BootOf(cfg, mem).writes;
            var n := |ws| - 1;
            && n > 0 && ws[n].Put? && SaysApplied(job, ws[n].record)
            && Pending(cfg, RunWrites(cfg.crc, mem, ws[..n]), job, f) && SaysDone(Load(cfg, RunWrites(cfg.crc, mem, ws[..n])))
            && ws[n - 1].Put? && Load(cfg, RunWrites(cfg.crc, mem, ws[..n])) == ws[n - 1].record
  {
    hide LogInv, Load, Staged, Installed, ValidStage, BootOf, RunWrites, Safe, SaysDone, ApplyPending, Keeps, SaysApplied, Recordable,
      CountAndCopy, StoreCopyTransaction;
    var m, p := Load(cfg, mem), ApplyPending(cfg, mem, Load(cfg, mem));
    PendingBoot(cfg, mem, job, e);
    var body, mid, done;
    body, mid, f, done := AttemptEndsDone(cfg, mem, job, e, m);
    var ws, last := p.writes, p.metadata;
    assert ws == body + [Put(done)] + [Put(last)];
    assert ws[..|ws| - 1] == body + [Put(done)];
    assert ws == body + ([Put(done)] + [Put(last)]);
    RecordableParts(cfg.crc, job, m, e, body, mid, f, [Put(done)] + [Put(last)]);
    BodyDone(cfg, mem, job, e, body, mid, f);
    var mem1 := RunWrites(cfg.crc, mem, body);
    DoneIsStored(cfg, mem1, job, f, done, [Put(last)]);
    RunConcat(cfg.crc, mem, body, [Put(done)]);
  }

  lemma DoneIsStored(cfg: Config, mem: Image, job: Job, e: nat, done: Metadata, rest: seq<Write>)
    requires Pending(cfg, mem, job, e) && Installed(mem, job) && Keeps(job, done) && Follows(cfg.crc, Load(cfg, mem), done)
    requires Load(cfg, mem).core.bootAttempts <= done.core.bootAttempts && Recordable(cfg.crc, Load(cfg, mem), [Put(done)] + rest)
    ensures var after := RunWrites(cfg.crc, mem, [Put(done)]); Pending(cfg, after, job, e) && Load(cfg, after) == done
  {
    hide LogInv, Load, Staged, Installed, RunWrites, Keeps, Recordable, Storable, StoreOps, Apply;
    LoadIsShaped(cfg, mem);
    hide Follows;
    RecordableNext(cfg.crc, Load(cfg, mem), [Put(done)] + rest);
    RunOne(cfg.crc, mem, Put(done));
    SwitchWhole(cfg, mem, job, e, done);
  }

  lemma AttemptEndsDone(cfg: Config, mem: Image, job: Job, e: nat, m: Metadata)
    returns (body: seq<Write>, mid: Metadata, f: nat, done: Metadata)
    requires Keeps(job, m) && e <= m.core.bootAttempts < MAX_BOOT_ATTEMPTS && Staged(mem, job) && ValidStage(cfg.crc, mem, job) && !SaysDone(m)
    ensures var p := ApplyPending(cfg, mem, m);
            && p.writes == body + [Put(done), Put(p.metadata)] && SaysApplied(job, p.metadata)
            && Body(cfg.crc, job, m, e, body, mid, f) && Installed(RunWrites(cfg.crc, mem, body), job)
            && Keeps(job, done) && SaysDone(done) && Follows(cfg.crc, mid, done) && mid.core.bootAttempts <= done.core.bootAttempts
  {
    hide Staged, Installed, ValidStage, RunWrites, Safe, SaysApplied, CountAndCopy, StoreCopyTransaction, Follows, Carries, NoneDone, DoneTruly,
      CopyTransactionMatches;
    ValidFits(cfg.crc, mem, job);
    AttemptApplies(cfg, mem, job, m);
    StartedDoneTruly(cfg, mem, job, m);
    var started := StoreCopyTransaction(cfg.crc, m, TXN_STARTED, 0, RESULT_NONE);
    var mem1 := RunWrites(cfg.crc, mem, started.writes);
    var p := CountAndCopy(cfg, mem1, started.metadata);
    AttemptIsCount(cfg, mem, job, m);
    CountSafe(cfg, mem1, job, started.metadata, e);
    var rest;
    rest, mid, f, done := EndsDoneApplied(cfg, mem1, job, started.metadata, e, p);
    body := started.writes + rest;
    TransactionCarries(cfg.crc, job, m, e, TXN_STARTED, 0, RESULT_NONE);
    OkDoesNotMatter(cfg.crc, job, m, e, started, true, e);
    CarriesJoin(cfg.crc, job, m, e, started.writes, started.metadata, e, rest, mid, f);
    CarriesIsBody(cfg.crc, job, m, e, body, mid, f);
    RunConcat(cfg.crc, mem, started.writes, rest);
    assert started.writes + (rest + [Put(done), Put(p.metadata)]) == body + [Put(done), Put(p.metadata)];
  }

  lemma CarriesIsBody(crc: Crc, job: Job, m: Metadata, e: nat, body: seq<Write>, mid: Metadata, f: nat)
    requires Carries(crc, job, m, e, Plan(body, mid, true), f)
    ensures Body(crc, job, m, e, body, mid, f)
  {
  }
}
