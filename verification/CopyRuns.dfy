/** An image pending in copy mode, over any number of boots and power losses. */
module CopyRuns {
  import opened Outcomes
  import opened Bytes
  import opened Flash
  import opened Metadata
  import opened Partition
  import opened MetadataLog
  import opened MetadataRegister
  import opened BootPlan
  import opened SlotCopy
  import opened PowerLoss

  const SLOT_A_END := SLOT_A_OFFSET + SLOT_A_SIZE

  /** The image to be installed: the bytes of the staging slot, and the size and checksum recorded for it. */
  datatype Job = Job(stage: seq<byte>, size: u32, imageCrc: u32)

  // ----- states -----

  /** The record asks for the job's image. */
  ghost predicate Keeps(job: Job, m: Metadata) {
    && m.ab.bootMode != MODE_DIRECT_AB && m.core.pendingSlot == SLOT_B
    && m.core.slotBSize == job.size && m.core.slotBCrc32 == job.imageCrc
    && m.core.bootAttempts <= MAX_BOOT_ATTEMPTS
  }

  /** The record says that the job's image is the one to run. */
  ghost predicate SaysApplied(job: Job, m: Metadata) {
    && m.ab.bootMode != MODE_DIRECT_AB && m.core.pendingSlot == SLOT_NONE
    && m.core.activeSlot == SLOT_A && m.core.confirmedSlot == SLOT_A
    && m.core.slotASize == job.size && m.core.slotACrc32 == job.imageCrc
    && m.core.bootAttempts == 0 && m.ext.copyTxnState == TXN_NONE
    && m.core.lastBootResult == RESULT_APPLIED && m.core.lastBootSourceSlot == SLOT_B && m.core.lastBootSize == job.size
  }

  /** Slot A starts with the staged image. */
  ghost predicate Installed(mem: Image, job: Job) {
    && job.size <= SLOT_A_SIZE && job.size <= |job.stage|
    && forall i :: 0 <= i < job.size ==> mem[SLOT_A_OFFSET + i] == job.stage[i]
  }

  lemma InstalledIsSlice(mem: Image, job: Job)
    requires job.size <= SLOT_A_SIZE && job.size <= |job.stage|
    ensures Installed(mem, job) <==> mem[SLOT_A_OFFSET..SLOT_A_OFFSET + job.size] == job.stage[..job.size]
  {
    var a, b := mem[SLOT_A_OFFSET..SLOT_A_OFFSET + job.size], job.stage[..job.size];
    assert forall i :: 0 <= i < job.size ==> a[i] == mem[SLOT_A_OFFSET + i] && b[i] == job.stage[i];
    if a == b {
      assert forall i :: 0 <= i < job.size ==> mem[SLOT_A_OFFSET + i] == a[i];
    }
  }

  ghost predicate Staged(mem: Image, job: Job) { SlotBytes(mem, SLOT_B) == job.stage }

  /** A finished transaction of this very image. */
  ghost predicate SaysDone(m: Metadata) { m.ext.copyTxnState == TXN_DONE && CopyTransactionMatches(m) }

  /** The image is staged and asked for, `erases` erasures of slot A have been begun for it, and a transaction
      recorded as done tells the truth. */
  ghost predicate Pending(cfg: Config, mem: Image, job: Job, erases: nat) {
    && LogInv(cfg.crc, mem) && Staged(mem, job)
    && Keeps(job, Load(cfg, mem)) && erases <= Load(cfg, mem).core.bootAttempts
    && (SaysDone(Load(cfg, mem)) ==> Installed(mem, job))
  }

  ghost predicate Applied(cfg: Config, mem: Image, job: Job) {
    LogInv(cfg.crc, mem) && Staged(mem, job) && SaysApplied(job, Load(cfg, mem)) && Installed(mem, job)
  }

  ghost predicate InJob(cfg: Config, mem: Image, job: Job, erases: nat) {
    Pending(cfg, mem, job, erases) || (Applied(cfg, mem, job) && erases <= MAX_BOOT_ATTEMPTS)
  }

  // ----- what the writes before the switch may do -----

  /** Storing `r` after `cur`. */
  ghost predicate PutOk(crc: Crc, job: Job, cur: Metadata, r: Metadata) {
    && Follows(crc, cur, r) && Keeps(job, r)
    && cur.core.bootAttempts <= r.core.bootAttempts
    && (r.ext.copyTxnState == TXN_DONE ==> cur.ext.copyTxnState == TXN_DONE)
    && (SaysDone(r) ==> SaysDone(cur))
  }

  /** Writing to slot A: never with a transaction recorded as done, and an erasure only when paid for by an attempt. */
  ghost predicate RawOk(cur: Metadata, op: FlashOp, erases: nat) {
    && SLOT_A_OFFSET <= op.offset && op.offset + Length(op) <= SLOT_A_END
    && cur.ext.copyTxnState != TXN_DONE
    && erases + Wipes(Raw(op)) <= cur.core.bootAttempts
  }

  /** The writes lead from record `cur` and `e` erasures to record `last` and `f` erasures. */
  ghost predicate Body(crc: Crc, job: Job, cur: Metadata, e: nat, ws: seq<Write>, last: Metadata, f: nat)
    decreases |ws|
  {
    if ws == [] then last == cur && f == e
    else match ws[0]
      case Put(r) => PutOk(crc, job, cur, r) && Body(crc, job, r, e, ws[1..], last, f)
      case Raw(op) => RawOk(cur, op, e) && Body(crc, job, cur, e + Wipes(ws[0]), ws[1..], last, f)
  }

  lemma {:induction false} BodyConcat(crc: Crc, job: Job, cur: Metadata, e: nat, a: seq<Write>, mid: Metadata, g: nat,
                                      b: seq<Write>, last: Metadata, f: nat)
    requires Body(crc, job, cur, e, a, mid, g) && Body(crc, job, mid, g, b, last, f)
    ensures Body(crc, job, cur, e, a + b, last, f)
    decreases |a|
  {
    hide PutOk, RawOk;
    if a == [] {
      assert a + b == b;
    } else {
      assert (a + b)[1..] == a[1..] + b;
      match a[0]
      case Put(r) => BodyConcat(crc, job, r, e, a[1..], mid, g, b, last, f);
      case Raw(op) => BodyConcat(crc, job, cur, e + Wipes(a[0]), a[1..], mid, g, b, last, f);
    }
  }

  // ----- one write -----

  lemma SlotsKeptParts(mem: Image, after: Image, job: Job)
    requires SlotsKept(mem, after)
    ensures Staged(mem, job) ==> Staged(after, job)
    ensures Installed(mem, job) ==> Installed(after, job)
  {
    SliceOfPrefix(mem, METADATA_OFFSET, SLOT_B_OFFSET, SLOT_B_OFFSET + SLOT_B_SIZE);
    SliceOfPrefix(after, METADATA_OFFSET, SLOT_B_OFFSET, SLOT_B_OFFSET + SLOT_B_SIZE);
    if Installed(mem, job) {
      SliceOfPrefix(mem, METADATA_OFFSET, SLOT_A_OFFSET, SLOT_A_OFFSET + job.size);
      SliceOfPrefix(after, METADATA_OFFSET, SLOT_A_OFFSET, SLOT_A_OFFSET + job.size);
    }
  }

  lemma PutCut(cfg: Config, mem: Image, job: Job, e: nat, r: Metadata, after: Image)
    requires Pending(cfg, mem, job, e)
    requires PutOk(cfg.crc, job, Load(cfg, mem), r) && Storable(cfg.crc, Load(cfg, mem), r)
    requires CutDuring(cfg.crc, mem, StoreOps(cfg.crc, r), after)
    ensures Pending(cfg, after, job, e)
  {
    hide LogInv, Load, StoreOps, CutDuring, Storable, Installed, Staged, SlotsKept, Follows;
    DurableStep(cfg, mem, r, after);
    SlotsKeptParts(mem, after, job);
  }

  lemma PutDone(cfg: Config, mem: Image, job: Job, e: nat, r: Metadata)
    requires Pending(cfg, mem, job, e)
    requires PutOk(cfg.crc, job, Load(cfg, mem), r) && Storable(cfg.crc, Load(cfg, mem), r)
    ensures Pending(cfg, Apply(mem, StoreOps(cfg.crc, r)), job, e)
    ensures Load(cfg, Apply(mem, StoreOps(cfg.crc, r))) == r
  {
    hide LogInv, Load, StoreOps, Apply, Storable, Installed, Staged, SlotsKept, Follows;
    DurableComplete(cfg, mem, r);
    SlotsKeptParts(mem, Apply(mem, StoreOps(cfg.crc, r)), job);
  }

  lemma RawAnyway(cfg: Config, mem: Image, job: Job, e: nat, op: FlashOp, after: Image)
    requires Pending(cfg, mem, job, e) && RawOk(Load(cfg, mem), op, e)
    requires TornBytes(mem, op, after) || after == ApplyOp(mem, op)
    ensures Pending(cfg, after, job, e + Wipes(Raw(op))) && Load(cfg, after) == Load(cfg, mem)
  {
    hide LogInv, Load, ApplyOp, TornBytes, Installed, Keeps, Staged;
    SlotOpKeepsLog(cfg, mem, op, after);
    RawKeepsStage(mem, job, op, after);
  }

  lemma RawKeepsStage(mem: Image, job: Job, op: FlashOp, after: Image)
    requires Staged(mem, job) && op.offset + Length(op) <= SLOT_A_END
    requires TornBytes(mem, op, after) || after == ApplyOp(mem, op)
    ensures Staged(after, job)
  {
    hide ApplyOp, TornBytes;
    TornElsewhere(mem, op, after, SLOT_B_OFFSET, SLOT_B_OFFSET + SLOT_B_SIZE);
  }

  // ----- the writes before the switch -----

  /** However the power fails during such writes, the job stays pending and every erasure stays paid for. */
  lemma {:induction false} BodyCut(cfg: Config, mem: Image, job: Job, e: nat, ws: seq<Write>, last: Metadata, f: nat,
                                   after: Image, wiped: nat)
    requires Pending(cfg, mem, job, e)
    requires Body(cfg.crc, job, Load(cfg, mem), e, ws, last, f) && Recordable(cfg.crc, Load(cfg, mem), ws)
    requires CutWrites(cfg.crc, mem, ws, after, wiped)
    ensures Pending(cfg, after, job, e + wiped)
    decreases |ws|
  {
    hide LogInv, Load, StoreOps, Apply, Pending, PutOk, RawOk, CutDuring, Recordable, Storable;
    if !(after == mem && wiped == 0) {
      match ws[0]
      case Put(r) => BodyCutAtPut(cfg, mem, job, e, ws, last, f, after, wiped);
      case Raw(op) => BodyCutAtRaw(cfg, mem, job, e, ws, last, f, after, wiped);
    }
  }

  lemma BodyCutAtPut(cfg: Config, mem: Image, job: Job, e: nat, ws: seq<Write>, last: Metadata, f: nat,
                     after: Image, wiped: nat)
    requires ws != [] && ws[0].Put? && Pending(cfg, mem, job, e)
    requires Body(cfg.crc, job, Load(cfg, mem), e, ws, last, f) && Recordable(cfg.crc, Load(cfg, mem), ws)
    requires CutWrites(cfg.crc, mem, ws, after, wiped) && !(after == mem && wiped == 0)
    ensures Pending(cfg, after, job, e + wiped)
    decreases |ws|, 0
  {
    hide LogInv, Load, StoreOps, Apply, Keeps, CutDuring, Recordable, Storable, Installed, Staged, Follows, Pending;
    var r := ws[0].record;
    PutIsStorable(cfg, mem, job, e, ws);
    if CutDuring(cfg.crc, mem, StoreOps(cfg.crc, r), after) && wiped == 0 {
      PutCut(cfg, mem, job, e, r, after);
    } else {
      PutDone(cfg, mem, job, e, r);
      BodyCut(cfg, Apply(mem, StoreOps(cfg.crc, r)), job, e, ws[1..], last, f, after, wiped);
    }
  }

  lemma PutIsStorable(cfg: Config, mem: Image, job: Job, e: nat, ws: seq<Write>)
    requires ws != [] && ws[0].Put? && Pending(cfg, mem, job, e)
    requires PutOk(cfg.crc, job, Load(cfg, mem), ws[0].record) && Recordable(cfg.crc, Load(cfg, mem), ws)
    ensures Storable(cfg.crc, Load(cfg, mem), ws[0].record) && Recordable(cfg.crc, ws[0].record, ws[1..])
  {
    hide LogInv, Load, Keeps, Recordable, Storable, Installed, Staged, Follows;
    LoadIsShaped(cfg, mem);
    RecordableNext(cfg.crc, Load(cfg, mem), ws);
  }

  lemma BodyCutAtRaw(cfg: Config, mem: Image, job: Job, e: nat, ws: seq<Write>, last: Metadata, f: nat,
                     after: Image, wiped: nat)
    requires ws != [] && ws[0].Raw? && Pending(cfg, mem, job, e)
    requires Body(cfg.crc, job, Load(cfg, mem), e, ws, last, f) && Recordable(cfg.crc, Load(cfg, mem), ws)
    requires CutWrites(cfg.crc, mem, ws, after, wiped) && !(after == mem && wiped == 0)
    ensures Pending(cfg, after, job, e + wiped)
    decreases |ws|, 0
  {
    hide LogInv, Load, StoreOps, Apply, CutDuring, Recordable, Pending, RawOk, ApplyOp, TornBytes;
    var op, w := ws[0].op, Wipes(ws[0]);
    RecordableNext(cfg.crc, Load(cfg, mem), ws);
    OneOp(mem, op);
    if CutDuring(cfg.crc, mem, [op], after) && wiped == w {
      CutInSlotOp(cfg.crc, mem, op, after);
      RawAnyway(cfg, mem, job, e, op, after);
    } else {
      RawAnyway(cfg, mem, job, e, op, ApplyOp(mem, op));
      BodyCut(cfg, ApplyOp(mem, op), job, e + w, ws[1..], last, f, after, wiped - w);
    }
  }

  lemma {:induction false} BodyDone(cfg: Config, mem: Image, job: Job, e: nat, ws: seq<Write>, last: Metadata, f: nat)
    requires Pending(cfg, mem, job, e)
    requires Body(cfg.crc, job, Load(cfg, mem), e, ws, last, f) && Recordable(cfg.crc, Load(cfg, mem), ws)
    ensures var after := RunWrites(cfg.crc, mem, ws); Pending(cfg, after, job, f) && Load(cfg, after) == last
    decreases |ws|
  {
    hide LogInv, Load, StoreOps, Apply, Pending, Recordable, Storable, RunWrites, PutOk, RawOk;
    if ws == [] {
      RunOne(cfg.crc, mem, Put(last));
    } else {
      assert [ws[0]] + ws[1..] == ws;
      RunConcat(cfg.crc, mem, [ws[0]], ws[1..]);
      RunOne(cfg.crc, mem, ws[0]);
      match ws[0]
      case Put(r) =>
        PutIsStorable(cfg, mem, job, e, ws);
        PutDone(cfg, mem, job, e, r);
        BodyDone(cfg, Apply(mem, StoreOps(cfg.crc, r)), job, e, ws[1..], last, f);
      case Raw(op) =>
        OneOp(mem, op);
        RecordableNext(cfg.crc, Load(cfg, mem), ws);
        RawAnyway(cfg, mem, job, e, op, ApplyOp(mem, op));
        BodyDone(cfg, ApplyOp(mem, op), job, e + Wipes(ws[0]), ws[1..], last, f);
    }
  }

  // ----- the steps of a boot make such writes -----

  /** A plan that leads from record `m` and `e` erasures to its own record and `f` erasures, the job kept. */
  ghost predicate Carries(crc: Crc, job: Job, m: Metadata, e: nat, p: Plan, f: nat) {
    && Body(crc, job, m, e, p.writes, p.metadata, f)
    && Keeps(job, p.metadata) && m.core.bootAttempts <= p.metadata.core.bootAttempts
    && (m.ext.copyTxnState != TXN_DONE ==> p.metadata.ext.copyTxnState != TXN_DONE)
    && (CopyTransactionMatches(m) ==> CopyTransactionMatches(p.metadata))
  }

  lemma CarriesAfter(crc: Crc, job: Job, m: Metadata, e: nat, ws: seq<Write>, mid: Metadata, g: nat, p: Plan, f: nat)
    requires Carries(crc, job, m, e, Plan(ws, mid, true), g) && Carries(crc, job, mid, g, p, f)
    ensures Carries(crc, job, m, e, After(ws, p), f)
  {
    hide Body, Keeps;
    BodyConcat(crc, job, m, e, ws, mid, g, p.writes, p.metadata, f);
  }

  lemma NothingCarries(crc: Crc, job: Job, m: Metadata, e: nat, ok: bool)
    requires Keeps(job, m)
    ensures Carries(crc, job, m, e, Plan([], m, ok), e)
  {
  }

  /** Storing one record that may follow. */
  lemma PutCarries(crc: Crc, job: Job, m: Metadata, e: nat, r: Metadata)
    requires PutOk(crc, job, m, r) && (CopyTransactionMatches(m) ==> CopyTransactionMatches(r))
    ensures Carries(crc, job, m, e, Plan([Put(r)], r, true), e)
  {
    hide Follows;
    assert [Put(r)][1..] == [] && Body(crc, job, r, e, [], r, e);
  }

  lemma RawCarries(crc: Crc, job: Job, m: Metadata, e: nat, op: FlashOp)
    requires Keeps(job, m) && RawOk(m, op, e)
    ensures Carries(crc, job, m, e, Plan([Raw(op)], m, true), e + Wipes(Raw(op)))
  {
    assert [Raw(op)][1..] == [] && Body(crc, job, m, e + Wipes(Raw(op)), [], m, e + Wipes(Raw(op)));
  }

  lemma TransactionCarries(crc: Crc, job: Job, m: Metadata, e: nat, state: u32, written: u32, lastError: u32)
    requires Keeps(job, m) && state != TXN_DONE
    ensures var p := StoreCopyTransaction(crc, m, state, written, lastError);
            Carries(crc, job, m, e, p, e) && (p.ok ==> p.metadata.ext.copyTxnState != TXN_DONE)
  {
    hide UpdateCrc, Sealed, WellShaped, Carries, CopyTransactionMatches;
    var p := StoreCopyTransaction(crc, m, state, written, lastError);
    if !p.ok {
      NothingCarries(crc, job, m, e, false);
    } else {
      TransactionFollows(crc, m, state, written, lastError);
      PutCarries(crc, job, m, e, p.metadata);
    }
  }

  /** What storing the transaction state changes. */
  lemma TransactionFollows(crc: Crc, m: Metadata, state: u32, written: u32, lastError: u32)
    ensures var p := StoreCopyTransaction(crc, m, state, written, lastError);
            p.ok ==> && p.writes == [Put(p.metadata)] && Follows(crc, m, p.metadata)
                     && p.metadata.ext.copyTxnState == state
                     && p.metadata.core.(sequence := 0, metadataCrc32 := 0) == m.core.(sequence := 0, metadataCrc32 := 0)
                     && p.metadata.ab.bootMode == m.ab.bootMode
                     && (CopyTransactionMatches(m) || state == TXN_STARTED ==> CopyTransactionMatches(p.metadata))
  {
    if state == TXN_STARTED {
      CommittedFollows(crc, m, m.(ext := m.ext.(
        copyTxnState := TXN_STARTED, copySourceSlot := SLOT_B, copyDestinationSlot := SLOT_A, copySize := m.core.slotBSize,
        copyCrc32 := m.core.slotBCrc32, copyWritten := 0, copyAttempts := Inc(m.ext.copyAttempts), copyLastError := 0)));
    } else if TxnStateValid(state) {
      CommittedFollows(crc, m, m.(ext := m.ext.(copyTxnState := state, copyWritten := written, copyLastError := lastError)));
    }
  }

  lemma ResultCarries(crc: Crc, job: Job, m: Metadata, e: nat, result: u32)
    requires Keeps(job, m)
    ensures Carries(crc, job, m, e, StoreResult(crc, m, result, SLOT_B, false), e)
  {
    var c := m.core.(lastBootResult := result, lastBootSourceSlot := SLOT_B, lastBootSize := SlotSize(m, SLOT_B),
                     lastBootCrc32 := SlotCrc32(m, SLOT_B));
    CommittedFollows(crc, m, m.(core := c));
    var r := Committed(crc, m.(core := c));
    PutCarries(crc, job, m, e, r);
  }

  lemma FailureCarries(crc: Crc, job: Job, m: Metadata, e: nat, result: u32, written: u32, ok: bool)
    requires Keeps(job, m)
    ensures Carries(crc, job, m, e, StoreCopyFailure(crc, m, result, written).(ok := ok), e)
  {
    hide Carries, StoreCopyTransaction, StoreResult;
    var failed := StoreCopyTransaction(crc, m, TXN_FAILED, written, result);
    TransactionCarries(crc, job, m, e, TXN_FAILED, written, result);
    CarriesKeeps(crc, job, m, e, failed, e);
    ResultCarries(crc, job, failed.metadata, e, result);
    var recorded := StoreResult(crc, failed.metadata, result, SLOT_B, false);
    OkDoesNotMatter(crc, job, m, e, failed, true, e);
    CarriesAfter(crc, job, m, e, failed.writes, failed.metadata, e, recorded, e);
    OkDoesNotMatter(crc, job, m, e, After(failed.writes, recorded), ok, e);
  }

  lemma CarriesKeeps(crc: Crc, job: Job, m: Metadata, e: nat, p: Plan, f: nat)
    requires Carries(crc, job, m, e, p, f)
    ensures Keeps(job, p.metadata)
    ensures m.core.bootAttempts <= p.metadata.core.bootAttempts
    ensures m.ext.copyTxnState != TXN_DONE ==> p.metadata.ext.copyTxnState != TXN_DONE
    ensures CopyTransactionMatches(m) ==> CopyTransactionMatches(p.metadata)
  {
  }

  lemma OkDoesNotMatter(crc: Crc, job: Job, m: Metadata, e: nat, p: Plan, ok: bool, f: nat)
    requires Carries(crc, job, m, e, p, f)
    ensures Carries(crc, job, m, e, p.(ok := ok), f)
  {
  }

  /** The destination page is inside slot A, whatever page of the image it is. */
  predicate OnPage(img: seq<byte>, copied: nat) {
    |img| <= SLOT_A_SIZE && copied <= |img| && (copied % PAGE_SIZE == 0 || copied == |img|)
  }

  lemma NextOnPage(img: seq<byte>, copied: nat)
    requires OnPage(img, copied) && copied < |img|
    ensures OnPage(img, copied + Chunk(img, copied)) && 0 < Chunk(img, copied)
    ensures SLOT_A_OFFSET + copied + PAGE_SIZE <= SLOT_A_END
  {
  }

  lemma PageCarries(crc: Crc, job: Job, m: Metadata, e: nat, img: seq<byte>, copied: nat)
    requires Keeps(job, m) && m.ext.copyTxnState != TXN_DONE && e <= m.core.bootAttempts
    requires OnPage(img, copied) && copied < |img|
    ensures Carries(crc, job, m, e, Plan(PageWrite(img, SLOT_A_OFFSET, copied), m, true), e)
  {
    hide Keeps, PageAt, Carries;
    NextOnPage(img, copied);
    RawCarries(crc, job, m, e, Program(SLOT_A_OFFSET + copied, PageAt(img, copied)));
  }

  lemma {:induction false} LoopCarries(crc: Crc, job: Job, m: Metadata, e: nat, img: seq<byte>, copied: nat, next: nat)
    requires Keeps(job, m) && m.ext.copyTxnState != TXN_DONE && e <= m.core.bootAttempts && OnPage(img, copied)
    ensures Carries(crc, job, m, e, CopyLoop(crc, m, img, SLOT_A_OFFSET, copied, next), e)
    decreases |img| - copied, 1
  {
    hide Keeps, PageAt, Carries, OnPage, StoreCopyTransaction, After, Chunk;
    PageInBounds(img, copied);
    if copied == |img| {
      NothingCarries(crc, job, m, e, true);
    } else {
      NextOnPage(img, copied);
      PageCarries(crc, job, m, e, img, copied);
      var now, w := copied + Chunk(img, copied), PageWrite(img, SLOT_A_OFFSET, copied);
      if now >= next || now >= |img| {
        RecordCarries(crc, job, m, e, w, img, copied, now, next);
      } else {
        LoopCarries(crc, job, m, e, img, now, next);
        CarriesAfter(crc, job, m, e, w, m, e, CopyLoop(crc, m, img, SLOT_A_OFFSET, now, next), e);
      }
    }
  }

  lemma PageInBounds(img: seq<byte>, copied: nat)
    requires OnPage(img, copied)
    ensures LoopReady(img, SLOT_A_OFFSET, copied)
  {
  }

  lemma RecordCarries(crc: Crc, job: Job, m: Metadata, e: nat, w: seq<Write>, img: seq<byte>, copied: nat, now: nat, next: nat)
    requires Keeps(job, m) && m.ext.copyTxnState != TXN_DONE && e <= m.core.bootAttempts && OnPage(img, now) && copied < now
    requires Carries(crc, job, m, e, Plan(w, m, true), e)
    ensures LoopReady(img, SLOT_A_OFFSET, now)
    ensures var p := StoreCopyTransaction(crc, m, TXN_PROGRAMMING, now, RESULT_NONE);
            Carries(crc, job, m, e,
              if p.ok then After(w + p.writes, CopyLoop(crc, p.metadata, img, SLOT_A_OFFSET, now, next + PROGRESS_STORE_BYTES))
              else Plan(w, m, false), e)
    decreases |img| - copied, 0
  {
    hide Keeps, Carries, OnPage, StoreCopyTransaction, After, CopyLoop;
    PageInBounds(img, now);
    var p := StoreCopyTransaction(crc, m, TXN_PROGRAMMING, now, RESULT_NONE);
    TransactionCarries(crc, job, m, e, TXN_PROGRAMMING, now, RESULT_NONE);
    if p.ok {
      CarriesKeeps(crc, job, m, e, p, e);
      var rest := CopyLoop(crc, p.metadata, img, SLOT_A_OFFSET, now, next + PROGRESS_STORE_BYTES);
      LoopCarries(crc, job, p.metadata, e, img, now, next + PROGRESS_STORE_BYTES);
      OkDoesNotMatter(crc, job, m, e, p, true, e);
      CarriesAfter(crc, job, m, e, p.writes, p.metadata, e, rest, e);
      CarriesAfter(crc, job, m, e, w, m, e, After(p.writes, rest), e);
      AfterAfter(w, p.writes, rest);
    } else {
      OkDoesNotMatter(crc, job, m, e, Plan(w, m, true), false, e);
    }
  }

  lemma WipeCarries(crc: Crc, job: Job, m: Metadata, e: nat, size: nat)
    requires Keeps(job, m) && m.ext.copyTxnState != TXN_DONE && e < m.core.bootAttempts && size <= SLOT_A_SIZE
    ensures EraseSize(size) >= 0 && SLOT_A_OFFSET + EraseSize(size) <= TOTAL_SIZE
    ensures Carries(crc, job, m, e, Plan([Raw(Erase(SLOT_A_OFFSET, EraseSize(size)))], m, true), e + 1)
  {
    hide Keeps, Carries, EraseSize;
    EraseSizeBounds(size);
    RawCarries(crc, job, m, e, Erase(SLOT_A_OFFSET, EraseSize(size)));
  }

  lemma CarriesJoin(crc: Crc, job: Job, m: Metadata, e: nat, a: seq<Write>, mid: Metadata, g: nat, b: seq<Write>, last: Metadata,
                    f: nat)
    requires Carries(crc, job, m, e, Plan(a, mid, true), g) && Carries(crc, job, mid, g, Plan(b, last, true), f)
    ensures Carries(crc, job, m, e, Plan(a + b, last, true), f)
  {
    hide Carries;
    CarriesAfter(crc, job, m, e, a, mid, g, Plan(b, last, true), f);
  }

  /** Copying the staged image erases slot A once, paid for by the attempt just counted. */
  lemma CopySlotCarries(crc: Crc, job: Job, mem: Image, m: Metadata, e: nat) returns (f: nat)
    requires Keeps(job, m) && m.ext.copyTxnState != TXN_DONE && e < m.core.bootAttempts
    ensures Carries(crc, job, m, e, CopySlotPlan(crc, mem, m, SLOT_B, SLOT_A, job.size), f)
  {
    hide Keeps, Carries, StoreCopyTransaction, After, CopyLoop, EraseSize;
    if !CopyFits(SLOT_B, SLOT_A, job.size) {
      NothingCarries(crc, job, m, e, false);
      f := e;
    } else {
      f := e + 1;
      WipeCarries(crc, job, m, e, job.size);
      var wipe := [Raw(Erase(SLOT_A_OFFSET, EraseSize(job.size)))];
      var p := StoreCopyTransaction(crc, m, TXN_ERASED_ACTIVE, 0, RESULT_NONE);
      TransactionCarries(crc, job, m, f, TXN_ERASED_ACTIVE, 0, RESULT_NONE);
      if p.ok {
        OkDoesNotMatter(crc, job, m, f, p, true, f);
        CarriesJoin(crc, job, m, e, wipe, m, f, p.writes, p.metadata, f);
        CarriesKeeps(crc, job, m, f, p, f);
        ErasedCarries(crc, job, m, e, wipe + p.writes, p.metadata, f, mem[SLOT_B_OFFSET..SLOT_B_OFFSET + job.size]);
      } else {
        OkDoesNotMatter(crc, job, m, e, Plan(wipe, m, true), false, f);
      }
    }
  }

  /** From the second progress record of the copy on. */
  lemma ErasedCarries(crc: Crc, job: Job, m: Metadata, e: nat, ws: seq<Write>, mid: Metadata, f: nat, img: seq<byte>)
    requires Carries(crc, job, m, e, Plan(ws, mid, true), f)
    requires Keeps(job, mid) && mid.ext.copyTxnState != TXN_DONE && f <= mid.core.bootAttempts && |img| <= SLOT_A_SIZE
    ensures var p := StoreCopyTransaction(crc, mid, TXN_PROGRAMMING, 0, RESULT_NONE);
            Carries(crc, job, m, e,
              if p.ok then After(ws + p.writes, CopyLoop(crc, p.metadata, img, SLOT_A_OFFSET, 0, PROGRESS_STORE_BYTES))
              else Plan(ws, mid, false), f)
  {
    hide Keeps, Carries, StoreCopyTransaction, After, CopyLoop;
    var p := StoreCopyTransaction(crc, mid, TXN_PROGRAMMING, 0, RESULT_NONE);
    TransactionCarries(crc, job, mid, f, TXN_PROGRAMMING, 0, RESULT_NONE);
    if p.ok {
      OkDoesNotMatter(crc, job, mid, f, p, true, f);
      CarriesJoin(crc, job, m, e, ws, mid, f, p.writes, p.metadata, f);
      CarriesKeeps(crc, job, mid, f, p, f);
      LoopCarries(crc, job, p.metadata, f, img, 0, PROGRESS_STORE_BYTES);
      CarriesAfter(crc, job, m, e, ws + p.writes, p.metadata, f,
                   CopyLoop(crc, p.metadata, img, SLOT_A_OFFSET, 0, PROGRESS_STORE_BYTES), f);
    } else {
      OkDoesNotMatter(crc, job, m, e, Plan(ws, mid, true), false, f);
    }
  }

  // ----- the switch to the new image -----

  /** The last writes: the transaction of this very image is recorded as done, and only then the image as applied. */
  ghost predicate Tail(crc: Crc, job: Job, cur: Metadata, ws: seq<Write>, last: Metadata)
    decreases |ws|
  {
    if ws == [] then last == cur
    else
      && ws[0].Put? && Follows(crc, cur, ws[0].record)
      && (|| (SaysDone(cur) && SaysApplied(job, ws[0].record) && ws == [ws[0]] && last == ws[0].record)
          || (cur.ext.copyTxnState != TXN_DONE && Keeps(job, ws[0].record) && SaysDone(ws[0].record) && cur.core.bootAttempts <= ws[0].record.core.bootAttempts
              && Tail(crc, job, ws[0].record, ws[1..], last)))
  }

  /** A plan that splits into such a body and such a tail, the image being installed before the tail begins. */
  ghost predicate Splits(cfg: Config, mem: Image, job: Job, m: Metadata, e: nat, p: Plan,
                         body: seq<Write>, mid: Metadata, f: nat, tail: seq<Write>)
  {
    && p.writes == body + tail
    && Carries(cfg.crc, job, m, e, Plan(body, mid, true), f)
    && Tail(cfg.crc, job, mid, tail, p.metadata)
    && (tail != [] ==> Installed(RunWrites(cfg.crc, mem, body), job))
  }

  ghost predicate Safe(cfg: Config, mem: Image, job: Job, m: Metadata, e: nat, p: Plan) {
    exists body, mid, f, tail :: Splits(cfg, mem, job, m, e, p, body, mid, f, tail)
  }

  lemma CarriesIsSafe(cfg: Config, mem: Image, job: Job, m: Metadata, e: nat, p: Plan, f: nat)
    requires Carries(cfg.crc, job, m, e, p, f)
    ensures Safe(cfg, mem, job, m, e, p)
  {
    hide RunWrites, Carries, Installed;
    OkDoesNotMatter(cfg.crc, job, m, e, p, true, f);
    assert p.writes + [] == p.writes;
    assert Splits(cfg, mem, job, m, e, p, p.writes, p.metadata, f, []);
  }

  lemma SafeAfter(cfg: Config, mem: Image, job: Job, m: Metadata, e: nat, ws: seq<Write>, mid: Metadata, g: nat, p: Plan)
    requires Carries(cfg.crc, job, m, e, Plan(ws, mid, true), g)
    requires Safe(cfg, RunWrites(cfg.crc, mem, ws), job, mid, g, p)
    ensures Safe(cfg, mem, job, m, e, After(ws, p))
  {
    hide RunWrites, Carries, Installed, Tail;
    var mem1 := RunWrites(cfg.crc, mem, ws);
    var body, last, f, tail :| Splits(cfg, mem1, job, mid, g, p, body, last, f, tail);
    CarriesJoin(cfg.crc, job, m, e, ws, mid, g, body, last, f);
    RunConcat(cfg.crc, mem, ws, body);
    assert ws + (body + tail) == ws + body + tail;
    assert Splits(cfg, mem, job, m, e, After(ws, p), ws + body, last, f, tail);
  }

  lemma TailIsSafe(cfg: Config, mem: Image, job: Job, m: Metadata, e: nat, p: Plan)
    requires Keeps(job, m) && Installed(mem, job) && Tail(cfg.crc, job, m, p.writes, p.metadata)
    ensures Safe(cfg, mem, job, m, e, p)
  {
    hide RunWrites, Carries, Installed, Tail;
    NothingCarries(cfg.crc, job, m, e, true);
    RunOne(cfg.crc, mem, Put(m));
    assert [] + p.writes == p.writes;
    assert Splits(cfg, mem, job, m, e, p, [], m, e, p.writes);
  }

  lemma SwitchIsTail(crc: Crc, job: Job, m: Metadata)
    requires Keeps(job, m) && SaysDone(m)
    ensures var p := Stored(ApplyCopyToActiveDone(crc, m, SLOT_B, SLOT_A), m);
            Tail(crc, job, m, p.writes, p.metadata) && (p.ok <==> job.size != 0) && (p.ok ==> SaysApplied(job, p.metadata))
  {
    if job.size != 0 {
      var c := m.core.(activeSlot := SLOT_A, confirmedSlot := SLOT_A, pendingSlot := SLOT_NONE, bootAttempts := 0,
                       slotASize := job.size, slotACrc32 := job.imageCrc,
                       lastBootResult := RESULT_APPLIED, lastBootSourceSlot := SLOT_B,
                       lastBootSize := job.size, lastBootCrc32 := job.imageCrc);
      CommittedFollows(crc, m, m.(core := c, ext := ClearCopy(m.ext)));
    }
  }

  lemma FinishIsTail(crc: Crc, job: Job, m: Metadata, written: u32)
    requires Keeps(job, m) && CopyTransactionMatches(m) && m.ext.copyTxnState != TXN_DONE
    ensures var p := Finish(crc, m, written);
            Tail(crc, job, m, p.writes, p.metadata) && (p.ok ==> SaysApplied(job, p.metadata))
  {
    hide ApplyCopyToActiveDone, UpdateCrc, Follows, StoreCopyTransaction;
    TransactionFollows(crc, m, TXN_DONE, written, RESULT_NONE);
    var done := StoreCopyTransaction(crc, m, TXN_DONE, written, RESULT_NONE);
    StoredWrites(crc, m, TXN_DONE, written, RESULT_NONE);
    if done.ok {
      SwitchIsTail(crc, job, done.metadata);
      var switch := Stored(ApplyCopyToActiveDone(crc, done.metadata, SLOT_B, SLOT_A), done.metadata);
      assert (done.writes + switch.writes)[1..] == switch.writes;
    }
  }

  /** Storing the transaction state leaves the slots alone. */
  lemma TransactionKeepsSlots(crc: Crc, mem: Image, m: Metadata, state: u32, written: u32, lastError: u32)
    ensures SlotsKept(mem, RunWrites(crc, mem, StoreCopyTransaction(crc, m, state, written, lastError).writes))
  {
    hide StoreCopyTransaction, RunWrites, StoreOps, Apply;
    var p := StoreCopyTransaction(crc, m, state, written, lastError);
    StoredWrites(crc, m, state, written, lastError);
    RunOne(crc, mem, Put(m));
    if p.writes != [] {
      assert p.writes == [Put(p.writes[0].record)];
      RunOne(crc, mem, p.writes[0]);
      PutFramed(crc, mem, p.writes[0].record);
    }
  }

  lemma VerifySafe(cfg: Config, mem: Image, job: Job, m: Metadata, e: nat)
    requires Keeps(job, m) && m.ext.copyTxnState != TXN_DONE && CopyTransactionMatches(m) && Installed(mem, job)
    ensures Safe(cfg, mem, job, m, e, VerifyAndApply(cfg, mem, m))
  {
    hide RunWrites, Carries, Installed, Tail, Safe, StoreCopyTransaction, StoreCopyFailure, ValidateSlotAt, After, Finish;
    var verifying := StoreCopyTransaction(cfg.crc, m, TXN_VERIFYING, job.size, RESULT_NONE);
    TransactionCarries(cfg.crc, job, m, e, TXN_VERIFYING, job.size, RESULT_NONE);
    if !verifying.ok {
      CarriesIsSafe(cfg, mem, job, m, e, verifying, e);
    } else {
      CarriesKeeps(cfg.crc, job, m, e, verifying, e);
      OkDoesNotMatter(cfg.crc, job, m, e, verifying, true, e);
      var mem1 := RunWrites(cfg.crc, mem, verifying.writes);
      TransactionKeepsSlots(cfg.crc, mem, m, TXN_VERIFYING, job.size, RESULT_NONE);
      SlotsKeptParts(mem, mem1, job);
      var rest := if !ValidateSlotAsSlotA(cfg.crc, mem1, SLOT_A, job.size, job.imageCrc)
                  then StoreCopyFailure(cfg.crc, verifying.metadata, RESULT_ACTIVE_VALIDATE_FAILED, job.size).(ok := false)
                  else Finish(cfg.crc, verifying.metadata, job.size);
      VerdictSafe(cfg, mem1, job, verifying.metadata, e, ValidateSlotAsSlotA(cfg.crc, mem1, SLOT_A, job.size, job.imageCrc));
      SafeAfter(cfg, mem, job, m, e, verifying.writes, verifying.metadata, e, rest);
    }
  }

  lemma VerdictSafe(cfg: Config, mem: Image, job: Job, m: Metadata, e: nat, valid: bool)
    requires Keeps(job, m) && Installed(mem, job) && CopyTransactionMatches(m) && m.ext.copyTxnState != TXN_DONE
    ensures Safe(cfg, mem, job, m, e,
              if !valid then StoreCopyFailure(cfg.crc, m, RESULT_ACTIVE_VALIDATE_FAILED, job.size).(ok := false)
              else Finish(cfg.crc, m, job.size))
  {
    hide Carries, Installed, Tail, Safe, StoreCopyFailure, Finish;
    if valid {
      FinishIsTail(cfg.crc, job, m, job.size);
      TailIsSafe(cfg, mem, job, m, e, Finish(cfg.crc, m, job.size));
    } else {
      FailureCarries(cfg.crc, job, m, e, RESULT_ACTIVE_VALIDATE_FAILED, job.size, false);
      CarriesIsSafe(cfg, mem, job, m, e, StoreCopyFailure(cfg.crc, m, RESULT_ACTIVE_VALIDATE_FAILED, job.size).(ok := false), e);
    }
  }

  lemma CountCarries(crc: Crc, job: Job, m: Metadata, e: nat)
    requires Keeps(job, m) && m.core.bootAttempts < MAX_BOOT_ATTEMPTS
    ensures var p := Stored(IncrementBootAttempts(crc, m), m);
            Carries(crc, job, m, e, p, e) && p.ok && p.metadata.core.bootAttempts == m.core.bootAttempts + 1
  {
    CommittedFollows(crc, m, m.(core := m.core.(bootAttempts := Inc(m.core.bootAttempts))));
    PutCarries(crc, job, m, e, IncrementBootAttempts(crc, m).value);
  }

  lemma CountKeepsSlots(crc: Crc, mem: Image, m: Metadata)
    ensures SlotsKept(mem, RunWrites(crc, mem, Stored(IncrementBootAttempts(crc, m), m).writes))
  {
    hide Committed, RunWrites, StoreOps, Apply;
    var r := IncrementBootAttempts(crc, m).value;
    RunOne(crc, mem, Put(r));
    PutFramed(crc, mem, r);
  }

  /** A copy that succeeded has installed the staged image. */
  lemma CopyInstalls(crc: Crc, mem: Image, job: Job, m: Metadata)
    requires Staged(mem, job) && CopySlotPlan(crc, mem, m, SLOT_B, SLOT_A, job.size).ok
    ensures Installed(RunWrites(crc, mem, CopySlotPlan(crc, mem, m, SLOT_B, SLOT_A, job.size).writes), job)
  {
    hide RunWrites, StoreCopyTransaction, CopyLoop, EraseSize, After, Written, Copied;
    assert CopyFits(SLOT_B, SLOT_A, job.size);
    CopySlotCompletes(crc, mem, m, SLOT_B, SLOT_A, job.size);
    hide CopySlotPlan;
    var p := CopySlotPlan(crc, mem, m, SLOT_B, SLOT_A, job.size);
    CopiedIsInstalled(mem, RunWrites(crc, mem, p.writes), job);
  }

  lemma CopiedIsInstalled(mem: Image, after: Image, job: Job)
    requires Staged(mem, job) && CopyFits(SLOT_B, SLOT_A, job.size)
    requires Copied(mem[SLOT_B_OFFSET..SLOT_B_OFFSET + job.size], after, SLOT_A_OFFSET)
    ensures Installed(after, job)
  {
    hide EraseSize;
    SliceOfSlice(mem, SLOT_B_OFFSET, SLOT_B_OFFSET + SLOT_B_SIZE, 0, job.size);
  }

  lemma CountSafe(cfg: Config, mem: Image, job: Job, m: Metadata, e: nat)
    requires Keeps(job, m) && m.ext.copyTxnState != TXN_DONE && e <= m.core.bootAttempts < MAX_BOOT_ATTEMPTS
    requires Staged(mem, job) && CopyTransactionMatches(m)
    ensures Safe(cfg, mem, job, m, e, CountAndCopy(cfg, mem, m))
  {
    hide RunWrites, Carries, Installed, Safe, StoreCopyFailure, ValidateSlotAt, After, IncrementBootAttempts, CopySlotPlan,
      VerifyAndApply;
    var counted := Stored(IncrementBootAttempts(cfg.crc, m), m);
    CountCarries(cfg.crc, job, m, e);
    CarriesKeeps(cfg.crc, job, m, e, counted, e);
    var mem1 := RunWrites(cfg.crc, mem, counted.writes);
    if !ValidateSlotAsSlotA(cfg.crc, mem1, SLOT_B, job.size, job.imageCrc) {
      var failure := StoreCopyFailure(cfg.crc, counted.metadata, RESULT_STAGE_VALIDATE_FAILED, 0).(ok := false);
      FailureCarries(cfg.crc, job, counted.metadata, e, RESULT_STAGE_VALIDATE_FAILED, 0, false);
      CarriesAfter(cfg.crc, job, m, e, counted.writes, counted.metadata, e, failure, e);
      CarriesIsSafe(cfg, mem, job, m, e, After(counted.writes, failure), e);
    } else {
      CountKeepsSlots(cfg.crc, mem, m);
      SlotsKeptParts(mem, mem1, job);
      CopySafe(cfg, mem, job, m, e, counted);
    }
  }

  /** From the copy on. */
  lemma CopySafe(cfg: Config, mem: Image, job: Job, m: Metadata, e: nat, counted: Plan)
    requires Carries(cfg.crc, job, m, e, counted, e) && counted.ok && Keeps(job, counted.metadata)
    requires CopyTransactionMatches(counted.metadata)
    requires counted.metadata.ext.copyTxnState != TXN_DONE && e < counted.metadata.core.bootAttempts
    requires Staged(RunWrites(cfg.crc, mem, counted.writes), job)
    ensures var mem1 := RunWrites(cfg.crc, mem, counted.writes);
            var copy := CopySlotPlan(cfg.crc, mem1, counted.metadata, SLOT_B, SLOT_A, job.size);
            var rest := if !copy.ok then StoreCopyFailure(cfg.crc, copy.metadata, RESULT_COPY_FAILED, copy.metadata.ext.copyWritten).(ok := false)
                        else VerifyAndApply(cfg, RunWrites(cfg.crc, mem1, copy.writes), copy.metadata);
            Safe(cfg, mem, job, m, e, After(counted.writes + copy.writes, rest))
  {
    hide RunWrites, Carries, Installed, Safe, StoreCopyFailure, After, CopySlotPlan, VerifyAndApply, Staged;
    var mem1 := RunWrites(cfg.crc, mem, counted.writes);
    var copy := CopySlotPlan(cfg.crc, mem1, counted.metadata, SLOT_B, SLOT_A, job.size);
    var f := CopySlotCarries(cfg.crc, job, mem1, counted.metadata, e);
    CarriesKeeps(cfg.crc, job, counted.metadata, e, copy, f);
    OkDoesNotMatter(cfg.crc, job, counted.metadata, e, copy, true, f);
    CarriesJoin(cfg.crc, job, m, e, counted.writes, counted.metadata, e, copy.writes, copy.metadata, f);
    RunConcat(cfg.crc, mem, counted.writes, copy.writes);
    var mem2 := RunWrites(cfg.crc, mem1, copy.writes);
    if copy.ok {
      CopyInstalls(cfg.crc, mem1, job, counted.metadata);
      VerifySafe(cfg, mem2, job, copy.metadata, f);
      SafeAfter(cfg, mem, job, m, e, counted.writes + copy.writes, copy.metadata, f, VerifyAndApply(cfg, mem2, copy.metadata));
    } else {
      var failure := StoreCopyFailure(cfg.crc, copy.metadata, RESULT_COPY_FAILED, copy.metadata.ext.copyWritten).(ok := false);
      FailureCarries(cfg.crc, job, copy.metadata, f, RESULT_COPY_FAILED, copy.metadata.ext.copyWritten, false);
      CarriesIsSafe(cfg, mem2, job, copy.metadata, f, failure, f);
      SafeAfter(cfg, mem, job, m, e, counted.writes + copy.writes, copy.metadata, f, failure);
    }
  }

  /** Whatever a boot finds while the job is pending, its writes are safe. */
  lemma PendingSafe(cfg: Config, mem: Image, job: Job, m: Metadata, e: nat)
    requires Keeps(job, m) && e <= m.core.bootAttempts && Staged(mem, job) && (SaysDone(m) ==> Installed(mem, job))
    ensures Safe(cfg, mem, job, m, e, ApplyPending(cfg, mem, m))
  {
    hide RunWrites, Carries, Installed, Safe, StoreCopyFailure, StoreCopyTransaction, ValidateSlotAt, After, ApplyCopyToActiveDone,
      CountAndCopy, Staged, CopyTransactionMatches;
    if m.ext.copyTxnState == TXN_DONE && CopyTransactionMatches(m)
       && ValidateSlotAsSlotA(cfg.crc, mem, SLOT_A, job.size, job.imageCrc) {
      SwitchIsTail(cfg.crc, job, m);
      TailIsSafe(cfg, mem, job, m, e, Stored(ApplyCopyToActiveDone(cfg.crc, m, SLOT_B, SLOT_A), m));
    } else if job.size == 0 || m.core.bootAttempts >= MAX_BOOT_ATTEMPTS {
      FailureCarries(cfg.crc, job, m, e, RESULT_MAX_ATTEMPTS, m.ext.copyWritten, false);
      CarriesIsSafe(cfg, mem, job, m, e, StoreCopyFailure(cfg.crc, m, RESULT_MAX_ATTEMPTS, m.ext.copyWritten).(ok := false), e);
    } else {
      var started := StoreCopyTransaction(cfg.crc, m, TXN_STARTED, 0, RESULT_NONE);
      TransactionCarries(cfg.crc, job, m, e, TXN_STARTED, 0, RESULT_NONE);
      CarriesKeeps(cfg.crc, job, m, e, started, e);
      if started.ok {
        StartedSafe(cfg, mem, job, m, e, started);
      } else {
        CarriesIsSafe(cfg, mem, job, m, e, Plan(started.writes, started.metadata, false), e);
      }
    }
  }

  lemma StartedSafe(cfg: Config, mem: Image, job: Job, m: Metadata, e: nat, started: Plan)
    requires started == StoreCopyTransaction(cfg.crc, m, TXN_STARTED, 0, RESULT_NONE) && started.ok
    requires Carries(cfg.crc, job, m, e, started, e) && Keeps(job, m) && Keeps(job, started.metadata)
    requires e <= m.core.bootAttempts < MAX_BOOT_ATTEMPTS && Staged(mem, job)
    ensures Safe(cfg, mem, job, m, e,
                 After(started.writes, CountAndCopy(cfg, RunWrites(cfg.crc, mem, started.writes), started.metadata)))
  {
    hide RunWrites, Carries, Safe, StoreCopyTransaction, After, CountAndCopy, Staged, Keeps, Follows, SlotsKept;
    var mem1 := RunWrites(cfg.crc, mem, started.writes);
    TransactionFollows(cfg.crc, m, TXN_STARTED, 0, RESULT_NONE);
    TransactionKeepsSlots(cfg.crc, mem, m, TXN_STARTED, 0, RESULT_NONE);
    SlotsKeptParts(mem, mem1, job);
    CountSafe(cfg, mem1, job, started.metadata, e);
    SafeAfter(cfg, mem, job, m, e, started.writes, started.metadata, e, CountAndCopy(cfg, mem1, started.metadata));
  }

  // ----- one boot, cut anywhere -----

  lemma {:induction false} CutOfWrites(crc: Crc, job: Job, cur: Metadata, e: nat, mem: Image, a: seq<Write>, mid: Metadata, f: nat,
                                       b: seq<Write>, after: Image, wiped: nat)
    requires Body(crc, job, cur, e, a, mid, f) && CutWrites(crc, mem, a + b, after, wiped)
    ensures f >= e
    ensures CutWrites(crc, mem, a, after, wiped)
            || (wiped >= f - e && CutWrites(crc, RunWrites(crc, mem, a), b, after, wiped - (f - e)))
    decreases |a|
  {
    hide Expand, Apply, PutOk, RawOk, RunWrites, CutDuring;
    RunOne(crc, mem, Put(cur));
    if a == [] {
      assert a + b == b;
    } else {
      assert (a + b)[1..] == a[1..] + b && [a[0]] + a[1..] == a;
      RunConcat(crc, mem, [a[0]], a[1..]);
      RunOne(crc, mem, a[0]);
      var next, w := if a[0].Put? then a[0].record else cur, Wipes(a[0]);
      BodyCounts(crc, job, next, e + w, a[1..], mid, f);
      if !(after == mem && wiped == 0) && !(CutDuring(crc, mem, Expand(crc, a[0]), after) && wiped == w) {
        CutOfWrites(crc, job, next, e + w, Apply(mem, Expand(crc, a[0])), a[1..], mid, f, b, after, wiped - w);
      }
    }
  }

  lemma {:induction false} BodyCounts(crc: Crc, job: Job, cur: Metadata, e: nat, ws: seq<Write>, last: Metadata, f: nat)
    requires Body(crc, job, cur, e, ws, last, f)
    ensures e <= f
    decreases |ws|
  {
    hide PutOk, RawOk;
    if ws != [] {
      BodyCounts(crc, job, if ws[0].Put? then ws[0].record else cur, e + Wipes(ws[0]), ws[1..], last, f);
    }
  }

  /** What may be recorded as a whole may be recorded in two parts. */
  lemma {:induction false} RecordableParts(crc: Crc, job: Job, cur: Metadata, e: nat, a: seq<Write>, mid: Metadata, f: nat, b: seq<Write>)
    requires Body(crc, job, cur, e, a, mid, f) && Recordable(crc, cur, a + b)
    ensures Recordable(crc, cur, a) && Recordable(crc, mid, b)
    decreases |a|
  {
    RecordablePrefix(crc, cur, a, b);
    hide PutOk, RawOk, Recordable;
    if a == [] {
      assert a + b == b;
    } else {
      assert (a + b)[1..] == a[1..] + b;
      RecordableTail(crc, job, cur, a + b);
      RecordableParts(crc, job, if a[0].Put? then a[0].record else cur, e + Wipes(a[0]), a[1..], mid, f, b);
    }
  }

  lemma RecordableTail(crc: Crc, job: Job, cur: Metadata, ws: seq<Write>)
    requires ws != [] && Recordable(crc, cur, ws) && (ws[0].Put? ==> PutOk(crc, job, cur, ws[0].record))
    ensures Recordable(crc, if ws[0].Put? then ws[0].record else cur, ws[1..])
  {
    hide Recordable, Follows;
    RecordableNext(crc, cur, ws);
  }

  lemma RecordablePrefix(crc: Crc, cur: Metadata, a: seq<Write>, b: seq<Write>)
    requires Recordable(crc, cur, a + b)
    ensures Recordable(crc, cur, a)
  {
    hide Distinct;
    forall i | 0 <= i < |a| && a[i].Put? ensures Distinct(crc, a[i].record) {
      assert (a + b)[i] == a[i];
    }
  }

  /** A record of the tail. */
  ghost predicate TailPut(job: Job, cur: Metadata, r: Metadata) {
    SaysApplied(job, r) || (Keeps(job, r) && cur.core.bootAttempts <= r.core.bootAttempts)
  }

  lemma SwitchCut(cfg: Config, mem: Image, job: Job, e: nat, r: Metadata, after: Image)
    requires Pending(cfg, mem, job, e) && Installed(mem, job)
    requires Storable(cfg.crc, Load(cfg, mem), r) && TailPut(job, Load(cfg, mem), r)
    requires CutDuring(cfg.crc, mem, StoreOps(cfg.crc, r), after)
    ensures InJob(cfg, after, job, e)
  {
    hide LogInv, Load, StoreOps, CutDuring, Storable, Installed, Staged, SlotsKept, Follows;
    DurableStep(cfg, mem, r, after);
    SlotsKeptParts(mem, after, job);
  }

  lemma SwitchWhole(cfg: Config, mem: Image, job: Job, e: nat, r: Metadata)
    requires Pending(cfg, mem, job, e) && Installed(mem, job)
    requires Storable(cfg.crc, Load(cfg, mem), r) && TailPut(job, Load(cfg, mem), r)
    ensures var after := Apply(mem, StoreOps(cfg.crc, r));
            && Load(cfg, after) == r && Installed(after, job) && InJob(cfg, after, job, e)
            && (Keeps(job, r) ==> Pending(cfg, after, job, e))
  {
    hide LogInv, Load, StoreOps, Apply, Storable, Installed, Staged, SlotsKept, Follows;
    DurableComplete(cfg, mem, r);
    SlotsKeptParts(mem, Apply(mem, StoreOps(cfg.crc, r)), job);
  }

  lemma TailStorable(cfg: Config, mem: Image, job: Job, ws: seq<Write>, last: Metadata)
    requires LogInv(cfg.crc, mem) && ws != []
    requires Tail(cfg.crc, job, Load(cfg, mem), ws, last) && Recordable(cfg.crc, Load(cfg, mem), ws)
    ensures ws[0].Put? && TailPut(job, Load(cfg, mem), ws[0].record)
    ensures Storable(cfg.crc, Load(cfg, mem), ws[0].record) && Recordable(cfg.crc, ws[0].record, ws[1..])
  {
    hide LogInv, Load, Keeps, SaysApplied, Recordable, Storable, Follows;
    LoadIsShaped(cfg, mem);
    RecordableNext(cfg.crc, Load(cfg, mem), ws);
  }

  lemma CutOfNothing(crc: Crc, mem: Image, after: Image, wiped: nat)
    requires CutWrites(crc, mem, [], after, wiped)
    ensures after == mem && wiped == 0
  {
  }

  lemma CutAtPut(crc: Crc, mem: Image, ws: seq<Write>, after: Image, wiped: nat)
    requires ws != [] && ws[0].Put? && CutWrites(crc, mem, ws, after, wiped)
    ensures || (after == mem && wiped == 0)
            || (CutDuring(crc, mem, StoreOps(crc, ws[0].record), after) && wiped == 0)
            || CutWrites(crc, Apply(mem, StoreOps(crc, ws[0].record)), ws[1..], after, wiped)
  {
    hide StoreOps, Apply, CutDuring;
  }

  /** The image is installed and still pending. */
  ghost predicate Switching(cfg: Config, mem: Image, job: Job, e: nat) { Pending(cfg, mem, job, e) && Installed(mem, job) }

  lemma SwitchingIsInJob(cfg: Config, mem: Image, job: Job, e: nat)
    requires Switching(cfg, mem, job, e)
    ensures InJob(cfg, mem, job, e) && LogInv(cfg.crc, mem)
  {
    hide Installed, LogInv, Load;
  }

  /** One record of the tail, cut short or whole. */
  lemma TailStep(cfg: Config, mem: Image, job: Job, e: nat, ws: seq<Write>, last: Metadata, after: Image)
    requires Switching(cfg, mem, job, e) && ws != []
    requires Tail(cfg.crc, job, Load(cfg, mem), ws, last) && Recordable(cfg.crc, Load(cfg, mem), ws)
    ensures ws[0].Put?
    ensures CutDuring(cfg.crc, mem, StoreOps(cfg.crc, ws[0].record), after) ==> InJob(cfg, after, job, e)
    ensures var mem1 := Apply(mem, StoreOps(cfg.crc, ws[0].record));
            && InJob(cfg, mem1, job, e) && Load(cfg, mem1) == ws[0].record
            && (if ws == [ws[0]] then last == ws[0].record
                else Switching(cfg, mem1, job, e) && Tail(cfg.crc, job, Load(cfg, mem1), ws[1..], last)
                     && Recordable(cfg.crc, Load(cfg, mem1), ws[1..]))
  {
    SwitchingIsInJob(cfg, mem, job, e);
    TailStorable(cfg, mem, job, ws, last);
    hide LogInv, Load, StoreOps, Apply, CutDuring, Recordable, Storable, Installed, Follows, Keeps, SaysApplied, Pending, TailPut, InJob;
    if CutDuring(cfg.crc, mem, StoreOps(cfg.crc, ws[0].record), after) {
      SwitchCut(cfg, mem, job, e, ws[0].record, after);
    }
    SwitchWhole(cfg, mem, job, e, ws[0].record);
    TailRest(cfg.crc, job, Load(cfg, mem), ws, last);
  }

  lemma TailRest(crc: Crc, job: Job, cur: Metadata, ws: seq<Write>, last: Metadata)
    requires ws != [] && Tail(crc, job, cur, ws, last)
    ensures ws[0].Put?
    ensures if ws == [ws[0]] then last == ws[0].record else Keeps(job, ws[0].record) && Tail(crc, job, ws[0].record, ws[1..], last)
  {
    hide Follows, Keeps, SaysApplied;
  }

  /** Once the image is installed, a power loss leaves it pending or applied, and nothing more is erased. */
  lemma {:induction false} TailCut(cfg: Config, mem: Image, job: Job, e: nat, ws: seq<Write>, last: Metadata, after: Image, wiped: nat)
    requires Switching(cfg, mem, job, e)
    requires Tail(cfg.crc, job, Load(cfg, mem), ws, last) && Recordable(cfg.crc, Load(cfg, mem), ws)
    requires CutWrites(cfg.crc, mem, ws, after, wiped)
    ensures InJob(cfg, after, job, e) && wiped == 0
    decreases |ws|
  {
    hide LogInv, Load, StoreOps, Apply, CutDuring, Recordable, Tail, Switching, CutWrites, InJob;
    SwitchingIsInJob(cfg, mem, job, e);
    if ws == [] {
      CutOfNothing(cfg.crc, mem, after, wiped);
    } else {
      TailStep(cfg, mem, job, e, ws, last, after);
      CutAtPut(cfg.crc, mem, ws, after, wiped);
      var mem1 := Apply(mem, StoreOps(cfg.crc, ws[0].record));
      if CutWrites(cfg.crc, mem1, ws[1..], after, wiped) {
        if ws == [ws[0]] {
          assert ws[1..] == [];
          CutOfNothing(cfg.crc, mem1, after, wiped);
        } else {
          TailCut(cfg, mem1, job, e, ws[1..], last, after, wiped);
        }
      }
    }
  }

  lemma {:induction false} TailDone(cfg: Config, mem: Image, job: Job, e: nat, ws: seq<Write>, last: Metadata)
    requires Switching(cfg, mem, job, e) && ws != []
    requires Tail(cfg.crc, job, Load(cfg, mem), ws, last) && Recordable(cfg.crc, Load(cfg, mem), ws)
    ensures var after := RunWrites(cfg.crc, mem, ws); InJob(cfg, after, job, e) && Load(cfg, after) == last
    decreases |ws|
  {
    hide LogInv, Load, StoreOps, Apply, RunWrites, Recordable, Tail, Switching, InJob;
    TailStep(cfg, mem, job, e, ws, last, mem);
    RunOne(cfg.crc, mem, ws[0]);
    RunConcat(cfg.crc, mem, [ws[0]], ws[1..]);
    assert [ws[0]] + ws[1..] == ws;
    if ws == [ws[0]] {
      RunOne(cfg.crc, Apply(mem, StoreOps(cfg.crc, ws[0].record)), Put(last));
    } else {
      TailDone(cfg, Apply(mem, StoreOps(cfg.crc, ws[0].record)), job, e, ws[1..], last);
    }
  }

  /** However the power fails during safe writes, the job is still pending, with its erasures paid for, or applied. */
  lemma SafeCut(cfg: Config, mem: Image, job: Job, e: nat, p: Plan, after: Image, wiped: nat)
    requires Pending(cfg, mem, job, e) && Safe(cfg, mem, job, Load(cfg, mem), e, p)
    requires Recordable(cfg.crc, Load(cfg, mem), p.writes)
    requires CutWrites(cfg.crc, mem, p.writes, after, wiped)
    ensures InJob(cfg, after, job, e + wiped)
  {
    hide LogInv, Load, Recordable, Installed, Pending, CutWrites, Tail, Body, RunWrites, Applied, Keeps;
    var body, mid, f: nat, tail :| Splits(cfg, mem, job, Load(cfg, mem), e, p, body, mid, f, tail);
    RecordableParts(cfg.crc, job, Load(cfg, mem), e, body, mid, f, tail);
    CutOfWrites(cfg.crc, job, Load(cfg, mem), e, mem, body, mid, f, tail, after, wiped);
    if CutWrites(cfg.crc, mem, body, after, wiped) {
      BodyCut(cfg, mem, job, e, body, mid, f, after, wiped);
    } else {
      BodyDone(cfg, mem, job, e, body, mid, f);
      if tail == [] {
        TailEmpty(cfg, RunWrites(cfg.crc, mem, body), after, wiped - (f - e));
      } else {
        TailCut(cfg, RunWrites(cfg.crc, mem, body), job, f, tail, p.metadata, after, wiped - (f - e));
      }
    }
  }

  lemma TailEmpty(cfg: Config, mem: Image, after: Image, wiped: nat)
    requires CutWrites(cfg.crc, mem, [], after, wiped)
    ensures after == mem && wiped == 0
  {
  }

  /** Safe writes, all carried out, leave the plan's record in the log. */
  lemma SafeDone(cfg: Config, mem: Image, job: Job, e: nat, p: Plan)
    requires Pending(cfg, mem, job, e) && Safe(cfg, mem, job, Load(cfg, mem), e, p)
    requires Recordable(cfg.crc, Load(cfg, mem), p.writes)
    ensures var after := RunWrites(cfg.crc, mem, p.writes);
            Load(cfg, after) == p.metadata && exists f: nat :: InJob(cfg, after, job, f)
  {
    hide LogInv, Load, Recordable, Installed, Pending, Tail, Body, RunWrites, Applied, Keeps, InJob;
    var body, mid, f: nat, tail :| Splits(cfg, mem, job, Load(cfg, mem), e, p, body, mid, f, tail);
    RecordableParts(cfg.crc, job, Load(cfg, mem), e, body, mid, f, tail);
    BodyDone(cfg, mem, job, e, body, mid, f);
    RunConcat(cfg.crc, mem, body, tail);
    var mem1 := RunWrites(cfg.crc, mem, body);
    if tail == [] {
      RunOne(cfg.crc, mem1, Put(mid));
      TailIsLast(cfg.crc, job, mid, p.metadata);
      PendingIsInJob(cfg, mem1, job, f);
    } else {
      TailDone(cfg, mem1, job, f, tail, p.metadata);
    }
  }

  lemma TailIsLast(crc: Crc, job: Job, mid: Metadata, last: Metadata)
    requires Tail(crc, job, mid, [], last)
    ensures mid == last
  {
  }

  lemma PendingIsInJob(cfg: Config, mem: Image, job: Job, e: nat)
    requires Pending(cfg, mem, job, e)
    ensures InJob(cfg, mem, job, e) && e <= MAX_BOOT_ATTEMPTS
  {
  }

  // ----- what a boot writes -----

  lemma {:induction false} TailEndsInCopyMode(crc: Crc, job: Job, cur: Metadata, ws: seq<Write>, last: Metadata)
    requires Tail(crc, job, cur, ws, last) && Keeps(job, cur)
    ensures last.ab.bootMode != MODE_DIRECT_AB
    decreases |ws|
  {
    hide Follows;
    if ws != [] && !SaysApplied(job, ws[0].record) {
      TailEndsInCopyMode(crc, job, ws[0].record, ws[1..], last);
    }
  }

  /** While the job is pending a boot carries out the copy-to-active plan and no more. */
  lemma PendingBoot(cfg: Config, mem: Image, job: Job, e: nat)
    requires Pending(cfg, mem, job, e)
    ensures var p := ApplyPending(cfg, mem, Load(cfg, mem));
            && Safe(cfg, mem, job, Load(cfg, mem), e, p)
            && BootOf(cfg, mem) == Boot(p.writes, p.metadata,
                                        Fallback(cfg.crc, RunWrites(cfg.crc, mem, p.writes), p.metadata))
  {
    hide LogInv, Load, Staged, Installed, ApplyPending, RunWrites, Tail, Body, Fallback, PrepareDirectBoot;
    var p := ApplyPending(cfg, mem, Load(cfg, mem));
    PendingSafe(cfg, mem, job, Load(cfg, mem), e);
    var body, mid, f: nat, tail :| Splits(cfg, mem, job, Load(cfg, mem), e, p, body, mid, f, tail);
    TailEndsInCopyMode(cfg.crc, job, mid, tail, p.metadata);
  }

  /** Once the image is applied a boot writes nothing, and enters it exactly when it validates. */
  lemma AppliedBoot(cfg: Config, mem: Image, job: Job)
    requires Applied(cfg, mem, job)
    ensures BootOf(cfg, mem).writes == []
    ensures job.size != 0 ==> (BootOf(cfg, mem).target == Enter(SLOT_A_OFFSET) <==>
                               ValidateSlotAsSlotA(cfg.crc, mem, SLOT_A, job.size, job.imageCrc))
  {
    hide LogInv, Load, Staged, Installed, ValidateSlotAt, RunWrites;
    RunOne(cfg.crc, mem, Put(Load(cfg, mem)));
  }

  /** Marking an image pending in copy mode starts a job with no erasure made. */
  lemma MarkingStartsJob(cfg: Config, mem: Image, size: u32, imageCrc: u32)
    requires LogInv(cfg.crc, mem) && Load(cfg, mem).ab.bootMode != MODE_DIRECT_AB
    requires var marked := MarkPending(cfg.crc, Load(cfg, mem), SLOT_B, size, imageCrc);
             marked.Some? && !SaysDone(marked.value) && Storable(cfg.crc, Load(cfg, mem), marked.value)
    ensures var r := MarkPending(cfg.crc, Load(cfg, mem), SLOT_B, size, imageCrc).value;
            Pending(cfg, Apply(mem, StoreOps(cfg.crc, r)), Job(SlotBytes(mem, SLOT_B), size, imageCrc), 0)
  {
    hide LogInv, Load, StoreOps, Apply, Storable, Installed, SlotsKept;
    var r := MarkPending(cfg.crc, Load(cfg, mem), SLOT_B, size, imageCrc).value;
    DurableComplete(cfg, mem, r);
    SlotsKeptParts(mem, Apply(mem, StoreOps(cfg.crc, r)), Job(SlotBytes(mem, SLOT_B), size, imageCrc));
  }

  /** The metadata sectors of a new device. */
  ghost predicate BlankLog(mem: Image) { mem[METADATA_OFFSET..COPIES_END] == Fill(255, COPIES_END - METADATA_OFFSET) }

  lemma BlankCopyIsInvalid(crc: Crc, mem: Image, index: nat)
    requires BlankLog(mem) && index < 2
    ensures Live(crc, mem, index) == None
  {
    hide Live;
    var at := CopyOffset(index);
    SliceOfSlice(mem, METADATA_OFFSET, COPIES_END, at - METADATA_OFFSET, at - METADATA_OFFSET + SECTOR_SIZE);
    FillSlice(255, COPIES_END - METADATA_OFFSET, at - METADATA_OFFSET, at - METADATA_OFFSET + SECTOR_SIZE);
    assert ApplyOp(mem, EraseCopy(index)) == mem;
    ErasedCopyIsInvalid(crc, mem, index);
  }

  /** A job does start somewhere: the first image ever marked pending on a new device, whatever its slots hold. */
  lemma FirstJobStarts(cfg: Config, mem: Image, size: u32, imageCrc: u32)
    requires BlankLog(mem) && !cfg.defaultDirectAb && size != 0 && forall b :: !Blank(cfg.crc(b))
    ensures LogInv(cfg.crc, mem) && MarkPending(cfg.crc, Load(cfg, mem), SLOT_B, size, imageCrc).Some?
    ensures var r := MarkPending(cfg.crc, Load(cfg, mem), SLOT_B, size, imageCrc).value;
            Pending(cfg, Apply(mem, StoreOps(cfg.crc, r)), Job(SlotBytes(mem, SLOT_B), size, imageCrc), 0)
  {
    BlankLogIsGood(cfg, mem);
    DefaultIsShaped(cfg);
    hide LogInv, StoreOps, Apply, BlankLog, Load, Pending, Default;
    OperationsFollow(cfg.crc, MarkPendingOp(SLOT_B, size, imageCrc), Load(cfg, mem));
    FirstMarkIsStorable(cfg, size, imageCrc);
    MarkingStartsJob(cfg, mem, size, imageCrc);
  }

  lemma BlankLogIsGood(cfg: Config, mem: Image)
    requires BlankLog(mem)
    ensures LogInv(cfg.crc, mem) && Load(cfg, mem) == Default(cfg)
  {
    hide Live, Load, BlankLog;
    BlankCopyIsInvalid(cfg.crc, mem, 0);
    BlankCopyIsInvalid(cfg.crc, mem, 1);
    LoadUnderInv(cfg, mem);
  }

  lemma FirstMarkIsStorable(cfg: Config, size: u32, imageCrc: u32)
    requires !cfg.defaultDirectAb && size != 0 && forall b :: !Blank(cfg.crc(b))
    ensures var m := Default(cfg);
            var r := MarkPending(cfg.crc, m, SLOT_B, size, imageCrc);
            r.Some? && !SaysDone(r.value) && Storable(cfg.crc, m, r.value) && m.ab.bootMode != MODE_DIRECT_AB
  {
    DefaultIsShaped(cfg);
    OperationsFollow(cfg.crc, MarkPendingOp(SLOT_B, size, imageCrc), Default(cfg));
  }

  // ----- any number of boots and power losses -----

  /** One power cycle: what it leaves, and how many slot erasures were begun in it. */
  datatype Cycle = Cycle(after: Image, wiped: nat)

  /** Boots one after the other, each completed or cut by a power loss at any flash step. */
  ghost predicate IsBootRun(cfg: Config, mem: Image, cycles: seq<Cycle>)
    decreases |cycles|
  {
    cycles == [] ||
    (var ws := BootOf(cfg, mem).writes;
     && Recordable(cfg.crc, Load(cfg, mem), ws)
     && CutWrites(cfg.crc, mem, ws, cycles[0].after, cycles[0].wiped)
     && IsBootRun(cfg, cycles[0].after, cycles[1..]))
  }

  function Erasures(cycles: seq<Cycle>): nat {
    if cycles == [] then 0 else cycles[0].wiped + Erasures(cycles[1..])
  }

  function Final(mem: Image, cycles: seq<Cycle>): Image {
    if cycles == [] then mem else cycles[|cycles| - 1].after
  }

  lemma CycleKeepsJob(cfg: Config, mem: Image, job: Job, e: nat, after: Image, wiped: nat)
    requires InJob(cfg, mem, job, e)
    requires Recordable(cfg.crc, Load(cfg, mem), BootOf(cfg, mem).writes)
    requires CutWrites(cfg.crc, mem, BootOf(cfg, mem).writes, after, wiped)
    ensures InJob(cfg, after, job, e + wiped)
  {
    hide Load, Pending, Applied, BootOf, CutWrites, Recordable, Safe;
    if Pending(cfg, mem, job, e) {
      PendingBoot(cfg, mem, job, e);
      SafeCut(cfg, mem, job, e, ApplyPending(cfg, mem, Load(cfg, mem)), after, wiped);
    } else {
      AppliedBoot(cfg, mem, job);
      CutOfNothing(cfg.crc, mem, after, wiped);
    }
  }

  /** From every crash point of every boot the staging slot and the pending record are intact until the image is
      applied, and once it is applied it stays so; every erasure of slot A has been paid for by a stored attempt. */
  lemma {:induction false} BootsKeepTheJob(cfg: Config, mem: Image, job: Job, e: nat, cycles: seq<Cycle>)
    requires InJob(cfg, mem, job, e) && IsBootRun(cfg, mem, cycles)
    ensures InJob(cfg, Final(mem, cycles), job, e + Erasures(cycles))
    decreases |cycles|
  {
    hide Load, InJob, BootOf, CutWrites, Recordable;
    if cycles != [] {
      CycleKeepsJob(cfg, mem, job, e, cycles[0].after, cycles[0].wiped);
      BootsKeepTheJob(cfg, cycles[0].after, job, e + cycles[0].wiped, cycles[1..]);
      assert Final(mem, cycles) == Final(cycles[0].after, cycles[1..]);
    }
  }

  /** For one pending image slot A is erased at most three times, over any number of power cycles. */
  lemma AtMostThreeErasures(cfg: Config, mem: Image, job: Job, cycles: seq<Cycle>)
    requires Pending(cfg, mem, job, 0) && IsBootRun(cfg, mem, cycles)
    ensures Erasures(cycles) <= MAX_BOOT_ATTEMPTS
  {
    hide Pending, Applied, InJob, IsBootRun;
    PendingIsInJob(cfg, mem, job, 0);
    BootsKeepTheJob(cfg, mem, job, 0, cycles);
    InJobIsPaid(cfg, Final(mem, cycles), job, Erasures(cycles));
  }

  lemma InJobIsPaid(cfg: Config, mem: Image, job: Job, e: nat)
    requires InJob(cfg, mem, job, e)
    ensures e <= MAX_BOOT_ATTEMPTS
  {
    hide LogInv, Load, Staged, Installed;
  }
}
