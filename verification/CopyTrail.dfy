/** The trail of a whole copy-to-active update: every record and every erasure it makes, in order. */
module CopyTrail {
  import opened Bytes
  import opened Flash
  import opened Metadata
  import opened Partition
  import opened MetadataLog
  import opened MetadataRegister
  import opened BootPlan
  import opened SlotCopy
  import opened CopyRuns
  import opened CopyConverges

  /** An erasure, or a record as far as it tells of the transaction and of the attempts. */
  datatype Mark = Wiped | At(state: u32, written: u32, attempts: u32)

  function MarksOf(w: Write): seq<Mark> {
    match w
    case Put(r) => [At(r.ext.copyTxnState, r.ext.copyWritten, r.core.bootAttempts)]
    case Raw(op) => if op.Erase? then [Wiped] else []
  }

  function Marks(ws: seq<Write>): seq<Mark> { if ws == [] then [] else MarksOf(ws[0]) + Marks(ws[1..]) }

  lemma {:induction false} MarksConcat(a: seq<Write>, b: seq<Write>)
    ensures Marks(a + b) == Marks(a) + Marks(b)
    decreases |a|
  {
    hide MarksOf;
    if a == [] {
      assert a + b == b;
    } else {
      assert (a + b)[0] == a[0] && (a + b)[1..] == a[1..] + b;
      MarksConcat(a[1..], b);
    }
  }

  lemma MarksOfOne(w: Write)
    ensures Marks([w]) == MarksOf(w)
  {
    assert [w][1..] == [] && MarksOf(w) + [] == MarksOf(w);
  }

  /** Progress is recorded at every 64 KiB and at the end. */
  function ProgressMarks(size: u32, next: nat, attempts: u32): seq<Mark>
    decreases size - next
  {
    if next >= size then [At(TXN_PROGRAMMING, size, attempts)]
    else [At(TXN_PROGRAMMING, next, attempts)] + ProgressMarks(size, next + 0x1_0000, attempts)
  }

  /** The plan succeeds, with the transaction still under way, and leaves these marks. */
  ghost predicate Trails(job: Job, m: Metadata, p: Plan, marks: seq<Mark>) {
    p.ok && Under(job, p.metadata) && p.metadata.core.bootAttempts == m.core.bootAttempts && Marks(p.writes) == marks
  }

  lemma TrailsAfter(job: Job, m: Metadata, ws: seq<Write>, p: Plan, marks: seq<Mark>)
    requires Trails(job, m, p, marks)
    ensures Trails(job, m, After(ws, p), Marks(ws) + marks)
  {
    hide Under;
    MarksConcat(ws, p.writes);
  }

  lemma StoreTrails(crc: Crc, job: Job, m: Metadata, state: u32, written: u32)
    requires Under(job, m) && TXN_ERASED_ACTIVE <= state <= TXN_FAILED && written <= job.size
    ensures Trails(job, m, StoreCopyTransaction(crc, m, state, written, RESULT_NONE), [At(state, written, m.core.bootAttempts)])
  {
    TransactionUnder(crc, job, m, state, written);
    MarksOfOne(StoreCopyTransaction(crc, m, state, written, RESULT_NONE).writes[0]);
    hide Keeps, CopyTransactionMatches;
  }

  /** The next page boundary is where progress is due, unless it is the end. */
  lemma Due(img: seq<byte>, copied: nat, next: nat)
    requires copied < |img| && copied < next && copied % PAGE_SIZE == 0 && next % PAGE_SIZE == 0
    ensures var now := copied + Chunk(img, copied);
            && now <= |img| && now <= next && copied < now
            && (now < |img| ==> now % PAGE_SIZE == 0)
            && (now == |img| || now == next || now < next)
            && (next + PROGRESS_STORE_BYTES) % PAGE_SIZE == 0
  {
  }

  lemma {:induction false} LoopTrails(crc: Crc, job: Job, m: Metadata, img: seq<byte>, copied: nat, next: nat)
    requires Under(job, m) && |img| == job.size <= SLOT_A_SIZE
    requires copied < |img| && copied < next && copied % PAGE_SIZE == 0 && next % PAGE_SIZE == 0
    ensures LoopReady(img, SLOT_A_OFFSET, copied)
    ensures Trails(job, m, CopyLoop(crc, m, img, SLOT_A_OFFSET, copied, next), ProgressMarks(job.size, next, m.core.bootAttempts))
    decreases |img| - copied, 1
  {
    PageInBounds(img, copied);
    Due(img, copied, next);
    var page := Raw(Program(SLOT_A_OFFSET + copied, PageAt(img, copied)));
    var now := copied + Chunk(img, copied);
    hide StoreCopyTransaction, PageAt, Under, Marks, Trails, Chunk, ProgressMarks;
    MarksOfOne(page);
    if now >= next || now >= |img| {
      RecordTrails(crc, job, m, img, copied, now, next, page);
    } else {
      LoopTrails(crc, job, m, img, now, next);
      TrailsAfter(job, m, [page], CopyLoop(crc, m, img, SLOT_A_OFFSET, now, next), ProgressMarks(job.size, next, m.core.bootAttempts));
      assert [] + ProgressMarks(job.size, next, m.core.bootAttempts) == ProgressMarks(job.size, next, m.core.bootAttempts);
    }
  }

  lemma RecordTrails(crc: Crc, job: Job, m: Metadata, img: seq<byte>, copied: nat, now: nat, next: nat, page: Write)
    requires Under(job, m) && |img| == job.size <= SLOT_A_SIZE && Marks([page]) == []
    requires copied < now <= |img| && now <= next && next % PAGE_SIZE == 0 && (now == |img| || now == next)
    ensures LoopReady(img, SLOT_A_OFFSET, now)
    ensures var p := StoreCopyTransaction(crc, m, TXN_PROGRAMMING, now, RESULT_NONE);
            p.ok && Trails(job, m, After([page] + p.writes, CopyLoop(crc, p.metadata, img, SLOT_A_OFFSET, now, next + PROGRESS_STORE_BYTES)),
                           ProgressMarks(job.size, next, m.core.bootAttempts))
    decreases |img| - copied, 0
  {
    hide StoreCopyTransaction, Under, Marks, Trails;
    var a := m.core.bootAttempts;
    StoreTrails(crc, job, m, TXN_PROGRAMMING, now);
    var p := StoreCopyTransaction(crc, m, TXN_PROGRAMMING, now, RESULT_NONE);
    StoredTrail(job, m, p, At(TXN_PROGRAMMING, now, a));
    MarksConcat([page], p.writes);
    assert [] + [At(TXN_PROGRAMMING, now, a)] == [At(TXN_PROGRAMMING, now, a)];
    if now == |img| {
      var rest := Plan([], p.metadata, true);
      assert [page] + p.writes + [] == [page] + p.writes;
      EndTrails(job, m, p, After([page] + p.writes, rest), [At(TXN_PROGRAMMING, now, a)]);
    } else {
      assert (next + PROGRESS_STORE_BYTES) % PAGE_SIZE == 0;
      LoopTrails(crc, job, p.metadata, img, now, next + PROGRESS_STORE_BYTES);
      hide CopyLoop;
      var rest := CopyLoop(crc, p.metadata, img, SLOT_A_OFFSET, now, next + PROGRESS_STORE_BYTES);
      SameAttempts(job, m, p.metadata, rest, ProgressMarks(job.size, next + PROGRESS_STORE_BYTES, a));
      TrailsAfter(job, m, [page] + p.writes, rest, ProgressMarks(job.size, next + PROGRESS_STORE_BYTES, a));
    }
  }

  lemma StoredTrail(job: Job, m: Metadata, p: Plan, mark: Mark)
    requires Trails(job, m, p, [mark])
    ensures p.ok && Under(job, p.metadata) && p.metadata.core.bootAttempts == m.core.bootAttempts && Marks(p.writes) == [mark]
  {
    hide Under;
  }

  lemma EndTrails(job: Job, m: Metadata, p: Plan, q: Plan, marks: seq<Mark>)
    requires Under(job, p.metadata) && p.metadata.core.bootAttempts == m.core.bootAttempts
    requires q.ok && q.metadata == p.metadata && Marks(q.writes) == marks
    ensures Trails(job, m, q, marks)
  {
    hide Under;
  }

  lemma SameAttempts(job: Job, m: Metadata, n: Metadata, p: Plan, marks: seq<Mark>)
    requires Trails(job, n, p, marks) && m.core.bootAttempts == n.core.bootAttempts
    ensures Trails(job, m, p, marks)
  {
    hide Under;
  }

  /** Slot A is erased, that is recorded, and then the progress of the copy. */
  function CopyMarks(size: u32, attempts: u32): seq<Mark> {
    [Wiped] + [At(TXN_ERASED_ACTIVE, 0, attempts)] + [At(TXN_PROGRAMMING, 0, attempts)] + ProgressMarks(size, 0x1_0000, attempts)
  }

  lemma CopyTrails(crc: Crc, job: Job, mem: Image, m: Metadata)
    requires Under(job, m) && CopyFits(SLOT_B, SLOT_A, job.size)
    ensures Trails(job, m, CopySlotPlan(crc, mem, m, SLOT_B, SLOT_A, job.size), CopyMarks(job.size, m.core.bootAttempts))
  {
    hide StoreCopyTransaction, CopyLoop, EraseSize, Under, Marks, Trails, ProgressMarks;
    var a, img := m.core.bootAttempts, mem[SLOT_B_OFFSET..SLOT_B_OFFSET + job.size];
    EraseSizeBounds(job.size);
    var wipe := [Raw(Erase(SLOT_A_OFFSET, EraseSize(job.size)))];
    MarksOfOne(wipe[0]);
    StoreTrails(crc, job, m, TXN_ERASED_ACTIVE, 0);
    var p1 := StoreCopyTransaction(crc, m, TXN_ERASED_ACTIVE, 0, RESULT_NONE);
    StoredTrail(job, m, p1, At(TXN_ERASED_ACTIVE, 0, a));
    StoreTrails(crc, job, p1.metadata, TXN_PROGRAMMING, 0);
    var p2 := StoreCopyTransaction(crc, p1.metadata, TXN_PROGRAMMING, 0, RESULT_NONE);
    StoredTrail(job, p1.metadata, p2, At(TXN_PROGRAMMING, 0, a));
    MarksConcat(wipe, p1.writes);
    MarksConcat(wipe + p1.writes, p2.writes);
    LoopTrails(crc, job, p2.metadata, img, 0, PROGRESS_STORE_BYTES);
    var loop := CopyLoop(crc, p2.metadata, img, SLOT_A_OFFSET, 0, PROGRESS_STORE_BYTES);
    SameAttempts(job, m, p2.metadata, loop, ProgressMarks(job.size, PROGRESS_STORE_BYTES, a));
    TrailsAfter(job, m, wipe + p1.writes + p2.writes, loop, ProgressMarks(job.size, PROGRESS_STORE_BYTES, a));
    SlotSizeOfJob(job, m);
  }

  lemma SlotSizeOfJob(job: Job, m: Metadata)
    requires Under(job, m)
    ensures m.core.slotBSize == job.size && m.core.slotBCrc32 == job.imageCrc
  {
  }

  /** The copy is verified, the transaction done, and the image applied. */
  function LastMarks(size: u32, attempts: u32): seq<Mark> {
    [At(TXN_VERIFYING, size, attempts)] + ([At(TXN_DONE, size, attempts)] + [At(TXN_NONE, 0, 0)])
  }

  lemma VerifyMarks(cfg: Config, mem: Image, job: Job, m: Metadata)
    requires Under(job, m) && Staged(mem, job) && Installed(mem, job) && ValidStage(cfg.crc, mem, job)
    ensures Marks(VerifyAndApply(cfg, mem, m).writes) == LastMarks(job.size, m.core.bootAttempts)
  {
    hide StoreCopyTransaction, ValidStage, Staged, Installed, VerifyAndApply, Under, Marks, Trails, RunWrites;
    var a := m.core.bootAttempts;
    ValidFits(cfg.crc, mem, job);
    ActiveValidationNeverFails(cfg.crc, cfg, mem, job, m);
    StoreTrails(cfg.crc, job, m, TXN_VERIFYING, job.size);
    var p1 := StoreCopyTransaction(cfg.crc, m, TXN_VERIFYING, job.size, RESULT_NONE);
    StoredTrail(job, m, p1, At(TXN_VERIFYING, job.size, a));
    StoreTrails(cfg.crc, job, p1.metadata, TXN_DONE, job.size);
    var p2 := StoreCopyTransaction(cfg.crc, p1.metadata, TXN_DONE, job.size, RESULT_NONE);
    StoredTrail(job, p1.metadata, p2, At(TXN_DONE, job.size, a));
    AppliedMark(cfg.crc, job, p2.metadata);
    var p3 := Stored(ApplyCopyToActiveDone(cfg.crc, p2.metadata, SLOT_B, SLOT_A), p2.metadata);
    MarksConcat(p2.writes, p3.writes);
    MarksConcat(p1.writes, p2.writes + p3.writes);
  }

  lemma AppliedMark(crc: Crc, job: Job, m: Metadata)
    requires Under(job, m) && job.size != 0
    ensures Marks(Stored(ApplyCopyToActiveDone(crc, m, SLOT_B, SLOT_A), m).writes) == [At(TXN_NONE, 0, 0)]
  {
    MarksOfOne(Put(ApplyCopyToActiveDone(crc, m, SLOT_B, SLOT_A).value));
  }

  function CountedMarks(size: u32, attempts: u32): seq<Mark> {
    [At(TXN_STARTED, 0, attempts)] + (CopyMarks(size, attempts) + LastMarks(size, attempts))
  }

  lemma CountMarks(cfg: Config, mem: Image, job: Job, m: Metadata)
    requires Under(job, m) && m.ext.copyTxnState == TXN_STARTED && m.ext.copyWritten == 0 && m.core.bootAttempts < MAX_BOOT_ATTEMPTS
    requires Staged(mem, job) && ValidStage(cfg.crc, mem, job)
    ensures Marks(CountAndCopy(cfg, mem, m).writes) == CountedMarks(job.size, m.core.bootAttempts + 1)
  {
    CountedUnder(cfg.crc, job, m);
    CountStep(cfg.crc, m);
    CountedMark(cfg.crc, m);
    ValidFits(cfg.crc, mem, job);
    CountKeepsSlots(cfg.crc, mem, m);
    hide ValidateSlotAt, RunWrites, Staged, Installed, VerifyAndApply, CopySlotPlan, IncrementBootAttempts, SlotsKept, Under, Marks, Trails,
      CopyMarks, LastMarks;
    var counted := Stored(IncrementBootAttempts(cfg.crc, m), m);
    var mem1 := RunWrites(cfg.crc, mem, counted.writes);
    SlotsKeptParts(mem, mem1, job);
    StagedValidatesAlike(cfg.crc, mem, mem1, job);
    CopyTrails(cfg.crc, job, mem1, counted.metadata);
    var copy := CopySlotPlan(cfg.crc, mem1, counted.metadata, SLOT_B, SLOT_A, job.size);
    CopyIsUnder(job, counted.metadata, copy, CopyMarks(job.size, m.core.bootAttempts + 1));
    SlotSizeOfJob(job, m);
    SlotSizeOfJob(job, counted.metadata);
    SlotSizeOfJob(job, copy.metadata);
    CopyInstalls(cfg.crc, mem1, job, counted.metadata);
    CopySlotCompletes(cfg.crc, mem1, counted.metadata, SLOT_B, SLOT_A, job.size);
    CopyKeepsStage(cfg.crc, mem1, job, copy);
    var mem2 := RunWrites(cfg.crc, mem1, copy.writes);
    StagedValidatesAlike(cfg.crc, mem1, mem2, job);
    VerifyMarks(cfg, mem2, job, copy.metadata);
    MarksConcat(counted.writes, copy.writes);
    MarksConcat(counted.writes + copy.writes, VerifyAndApply(cfg, mem2, copy.metadata).writes);
    JoinMarks(job.size, m.core.bootAttempts + 1);
  }

  lemma JoinMarks(size: u32, attempts: u32)
    ensures [At(TXN_STARTED, 0, attempts)] + CopyMarks(size, attempts) + LastMarks(size, attempts) == CountedMarks(size, attempts)
  {
    hide CopyMarks, LastMarks;
  }

  lemma CopyIsUnder(job: Job, m: Metadata, p: Plan, marks: seq<Mark>)
    requires Trails(job, m, p, marks)
    ensures p.ok && Under(job, p.metadata) && p.metadata.core.bootAttempts == m.core.bootAttempts && Marks(p.writes) == marks
  {
    hide Under;
  }

  lemma CountedMark(crc: Crc, m: Metadata)
    requires m.ext.copyTxnState == TXN_STARTED && m.ext.copyWritten == 0 && m.core.bootAttempts < MAX_BOOT_ATTEMPTS
    ensures Marks(Stored(IncrementBootAttempts(crc, m), m).writes) == [At(TXN_STARTED, 0, m.core.bootAttempts + 1)]
  {
    MarksOfOne(Put(IncrementBootAttempts(crc, m).value));
  }

  /** A boot that installs a valid image leaves exactly this trail: the transaction is started; the attempt is counted before
      anything is erased; slot A is erased once, and that is recorded; progress is recorded at every 64 KiB and at the end;
      the copy is verified, the transaction done, and only then the image applied and the transaction cleared. */
  lemma UpdateLeavesItsTrail(cfg: Config, mem: Image, job: Job, e: nat)
    requires Pending(cfg, mem, job, e) && ValidStage(cfg.crc, mem, job)
    requires !SaysDone(Load(cfg, mem)) && Load(cfg, mem).core.bootAttempts < MAX_BOOT_ATTEMPTS
    ensures var a := Load(cfg, mem).core.bootAttempts;
            Marks(BootOf(cfg, mem).writes) == [At(TXN_STARTED, 0, a)] + CountedMarks(job.size, a + 1)
  {
    hide LogInv, Load, Staged, Installed, ValidStage, BootOf, RunWrites, Safe, ApplyPending, CountAndCopy, Marks, CountedMarks, SaysDone;
    var m := Load(cfg, mem);
    PendingBoot(cfg, mem, job, e);
    AttemptMarks(cfg, mem, job, m);
  }

  lemma AttemptMarks(cfg: Config, mem: Image, job: Job, m: Metadata)
    requires Keeps(job, m) && !SaysDone(m) && m.core.bootAttempts < MAX_BOOT_ATTEMPTS && Staged(mem, job) && ValidStage(cfg.crc, mem, job)
    ensures var a := m.core.bootAttempts;
            Marks(ApplyPending(cfg, mem, m).writes) == [At(TXN_STARTED, 0, a)] + CountedMarks(job.size, a + 1)
  {
    hide StoreCopyTransaction, ValidStage, Staged, CountAndCopy, RunWrites, Under, Marks, CountedMarks, ApplyPending, SaysDone, Keeps, CopyFits;
    ValidFits(cfg.crc, mem, job);
    StartedMark(cfg.crc, job, m);
    StartedKeepsStage(cfg, mem, job, m);
    AttemptIsCount(cfg, mem, job, m);
    var started := StoreCopyTransaction(cfg.crc, m, TXN_STARTED, 0, RESULT_NONE);
    var mem1 := RunWrites(cfg.crc, mem, started.writes);
    CountMarks(cfg, mem1, job, started.metadata);
    MarksConcat(started.writes, CountAndCopy(cfg, mem1, started.metadata).writes);
  }

  lemma StartedKeepsStage(cfg: Config, mem: Image, job: Job, m: Metadata)
    requires Staged(mem, job) && ValidStage(cfg.crc, mem, job)
    ensures var mem1 := RunWrites(cfg.crc, mem, StoreCopyTransaction(cfg.crc, m, TXN_STARTED, 0, RESULT_NONE).writes);
            Staged(mem1, job) && ValidStage(cfg.crc, mem1, job)
  {
    hide StoreCopyTransaction, ValidStage, Staged, Installed, RunWrites, SlotsKept;
    var mem1 := RunWrites(cfg.crc, mem, StoreCopyTransaction(cfg.crc, m, TXN_STARTED, 0, RESULT_NONE).writes);
    TransactionKeepsSlots(cfg.crc, mem, m, TXN_STARTED, 0, RESULT_NONE);
    SlotsKeptParts(mem, mem1, job);
    StagedValidatesAlike(cfg.crc, mem, mem1, job);
  }

  lemma StartedMark(crc: Crc, job: Job, m: Metadata)
    requires Keeps(job, m)
    ensures var p := StoreCopyTransaction(crc, m, TXN_STARTED, 0, RESULT_NONE);
            job.size != 0 ==>
              && p.ok && Under(job, p.metadata) && Marks(p.writes) == [At(TXN_STARTED, 0, m.core.bootAttempts)]
              && p.metadata.ext.copyTxnState == TXN_STARTED && p.metadata.ext.copyWritten == 0
              && p.metadata.core.bootAttempts == m.core.bootAttempts
  {
    if job.size != 0 {
      StartedUnder(crc, job, m);
      MarksOfOne(StoreCopyTransaction(crc, m, TXN_STARTED, 0, RESULT_NONE).writes[0]);
    }
  }
}
