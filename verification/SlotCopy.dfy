/** Copying one slot to the other: what it leaves in the destination and what it never touches. */
module SlotCopy {
  import opened Bytes
  import opened Flash
  import opened Metadata
  import opened Partition
  import opened MetadataLog
  import opened BootPlan

  const COPIES_END := METADATA_OFFSET + 2 * SECTOR_SIZE

  /** Nothing outside `lo .. hi` and the two metadata sectors differs. */
  ghost predicate Framed(mem: Image, after: Image, lo: nat, hi: nat)
    requires lo <= hi <= METADATA_OFFSET
  {
    && after[..lo] == mem[..lo]
    && after[hi..METADATA_OFFSET] == mem[hi..METADATA_OFFSET]
    && after[COPIES_END..] == mem[COPIES_END..]
  }

  lemma FramedTrans(a: Image, b: Image, c: Image, lo: nat, hi: nat)
    requires lo <= hi <= METADATA_OFFSET && Framed(a, b, lo, hi) && Framed(b, c, lo, hi)
    ensures Framed(a, c, lo, hi)
  {
  }

  /** Writing a metadata copy, whole or cut short, stays in the two metadata sectors. */
  lemma CopyOpFramed(mem: Image, op: FlashOp, after: Image)
    requires METADATA_OFFSET <= op.offset && op.offset + Length(op) <= COPIES_END
    requires TornBytes(mem, op, after) || after == ApplyOp(mem, op)
    ensures after[..METADATA_OFFSET] == mem[..METADATA_OFFSET] && after[COPIES_END..] == mem[COPIES_END..]
  {
    TornElsewhere(mem, op, after, 0, METADATA_OFFSET);
    TornElsewhere(mem, op, after, COPIES_END, TOTAL_SIZE);
  }

  lemma PutFramed(crc: Crc, mem: Image, m: Metadata)
    ensures var after := Apply(mem, StoreOps(crc, m));
            after[..METADATA_OFFSET] == mem[..METADATA_OFFSET] && after[COPIES_END..] == mem[COPIES_END..]
  {
    var s := UpdateCrc(crc, m);
    var erase, program := EraseCopy(CopyIndex(s)), Program(CopyOffset(CopyIndex(s)), Page(s));
    assert StoreOps(crc, m) == [erase, program];
    hide StoreOps, ApplyOp, Page, UpdateCrc;
    TwoOps(mem, erase, program);
    CopyOpFramed(mem, erase, ApplyOp(mem, erase));
    CopyOpFramed(ApplyOp(mem, erase), program, ApplyOp(ApplyOp(mem, erase), program));
  }

  /** A whole slot fits at `dst`, below the metadata. */
  predicate Room(dst: nat, size: nat) {
    size <= SLOT_A_SIZE && dst + SLOT_A_SIZE <= METADATA_OFFSET
  }

  /** The destination holds the first `copied` bytes of the image and is erased from there on. */
  ghost predicate Progress(mem: Image, img: seq<byte>, dst: nat, copied: nat)
    requires copied <= |img| && Room(dst, |img|)
  {
    EraseSizeBounds(|img|);
    && (copied % PAGE_SIZE == 0 || copied == |img|)
    && mem[dst..dst + copied] == img[..copied]
    && mem[dst + copied..dst + EraseSize(|img|)] == Fill(255, EraseSize(|img|) - copied)
  }

  lemma EraseStartsProgress(mem: Image, img: seq<byte>, dst: nat)
    requires Room(dst, |img|)
    ensures EraseSize(|img|) >= 0 && dst + EraseSize(|img|) <= METADATA_OFFSET
    ensures var after := ApplyOp(mem, Erase(dst, EraseSize(|img|)));
            Progress(after, img, dst, 0) && Framed(mem, after, dst, dst + EraseSize(|img|))
  {
    EraseSizeBounds(|img|);
    hide EraseSize;
    SpliceAt(mem, dst, Fill(255, EraseSize(|img|)));
  }

  lemma SpliceFramed(mem: Image, at: nat, data: seq<byte>, lo: nat, hi: nat)
    requires lo <= at && at + |data| <= hi <= METADATA_OFFSET
    ensures Framed(mem, Splice(mem, at, data), lo, hi)
  {
    SpliceElsewhere(mem, at, data, 0, lo);
    SpliceElsewhere(mem, at, data, hi, METADATA_OFFSET);
    SpliceElsewhere(mem, at, data, COPIES_END, TOTAL_SIZE);
  }

  /** On erased cells the next page is stored as it is. */
  lemma NextPageStored(mem: Image, img: seq<byte>, dst: nat, copied: nat)
    requires copied < |img| && Room(dst, |img|)
    requires Progress(mem, img, dst, copied)
    ensures copied % PAGE_SIZE == 0 && copied + PAGE_SIZE <= EraseSize(|img|) && dst + EraseSize(|img|) <= METADATA_OFFSET
    ensures ApplyOp(mem, Program(dst + copied, PageAt(img, copied))) == Splice(mem, dst + copied, PageAt(img, copied))
  {
    EraseSizeBounds(|img|);
    hide EraseSize, ApplyOp, PageAt;
    var at, end := dst + copied, dst + EraseSize(|img|);
    SliceOfSlice(mem, at, end, 0, PAGE_SIZE);
    FillSlice(255, end - at, 0, PAGE_SIZE);
    ProgramErased(mem, at, PageAt(img, copied));
  }

  lemma PrefixGrows(mem: Image, img: seq<byte>, dst: nat, copied: nat)
    requires copied < |img| && dst + copied + PAGE_SIZE <= TOTAL_SIZE
    requires mem[dst..dst + copied] == img[..copied]
    ensures var now := copied + Chunk(img, copied);
            Splice(mem, dst + copied, PageAt(img, copied))[dst..dst + now] == img[..now]
  {
    hide Splice, Fill;
    var page, chunk := PageAt(img, copied), Chunk(img, copied);
    SpliceExtends(mem, dst, dst + copied, page, chunk);
    assert page[..chunk] == img[copied..copied + chunk];
    assert img[..copied] + img[copied..copied + chunk] == img[..copied + chunk];
  }

  lemma RestStaysErased(mem: Image, img: seq<byte>, at: nat, copied: nat, end: nat)
    requires copied < |img| && at + PAGE_SIZE <= end <= TOTAL_SIZE
    requires mem[at..end] == Fill(255, end - at)
    ensures Splice(mem, at, PageAt(img, copied))[at + Chunk(img, copied)..end] == Fill(255, end - (at + Chunk(img, copied)))
  {
    hide Splice, Fill;
    var page, chunk := PageAt(img, copied), Chunk(img, copied);
    assert page[chunk..] == Fill(255, PAGE_SIZE - chunk);
    SpliceContinues(mem, at, page, chunk, end);
    SliceOfSlice(mem, at, end, PAGE_SIZE, end - at);
    FillSlice(255, end - at, PAGE_SIZE, end - at);
    FillJoins(255, PAGE_SIZE - chunk, end - at - PAGE_SIZE);
  }

  /** Only the erased span of the destination and the metadata sectors have been written. */
  ghost predicate Written(mem: Image, after: Image, dst: nat, size: nat)
    requires Room(dst, size)
  {
    EraseSizeBounds(size);
    Framed(mem, after, dst, dst + EraseSize(size))
  }

  lemma PageIsFramed(mem: Image, img: seq<byte>, dst: nat, copied: nat)
    requires copied < |img| && Room(dst, |img|) && copied + PAGE_SIZE <= EraseSize(|img|)
    ensures Written(mem, Splice(mem, dst + copied, PageAt(img, copied)), dst, |img|)
  {
    EraseSizeBounds(|img|);
    hide EraseSize, Splice, PageAt, Framed;
    SpliceFramed(mem, dst + copied, PageAt(img, copied), dst, dst + EraseSize(|img|));
  }

  /** Programming the next page onto erased cells succeeds and moves the progress on. */
  lemma PageStep(mem: Image, img: seq<byte>, dst: nat, copied: nat)
    requires copied < |img| && Room(dst, |img|)
    requires Progress(mem, img, dst, copied)
    ensures dst + copied + PAGE_SIZE <= METADATA_OFFSET
    ensures var after := ApplyOp(mem, Program(dst + copied, PageAt(img, copied)));
            && after[dst + copied..dst + copied + PAGE_SIZE] == PageAt(img, copied)
            && Progress(after, img, dst, copied + Chunk(img, copied))
            && Written(mem, after, dst, |img|)
  {
    NextPageStored(mem, img, dst, copied);
    PageIsFramed(mem, img, dst, copied);
    EraseSizeBounds(|img|);
    hide EraseSize, ApplyOp, Splice, Fill, Written, PageAt;
    var at, end := dst + copied, dst + EraseSize(|img|);
    SpliceThere(mem, at, PageAt(img, copied));
    PrefixGrows(mem, img, dst, copied);
    RestStaysErased(mem, img, at, copied, end);
  }

  /** A write that stays out of the slots keeps the progress. */
  lemma PutKeepsProgress(mem: Image, after: Image, img: seq<byte>, dst: nat, copied: nat)
    requires copied <= |img| && Room(dst, |img|)
    requires after[..METADATA_OFFSET] == mem[..METADATA_OFFSET] && after[COPIES_END..] == mem[COPIES_END..]
    ensures Progress(mem, img, dst, copied) ==> Progress(after, img, dst, copied)
    ensures EraseSize(|img|) >= 0 && dst + EraseSize(|img|) <= METADATA_OFFSET
    ensures Framed(mem, after, dst, dst + EraseSize(|img|))
  {
    EraseSizeBounds(|img|);
    hide EraseSize;
    var end := dst + EraseSize(|img|);
    SliceOfPrefix(mem, METADATA_OFFSET, dst, dst + copied);
    SliceOfPrefix(after, METADATA_OFFSET, dst, dst + copied);
    SliceOfPrefix(mem, METADATA_OFFSET, dst + copied, end);
    SliceOfPrefix(after, METADATA_OFFSET, dst + copied, end);
    SliceOfPrefix(mem, METADATA_OFFSET, end, METADATA_OFFSET);
    SliceOfPrefix(after, METADATA_OFFSET, end, METADATA_OFFSET);
    SliceOfPrefix(mem, METADATA_OFFSET, 0, dst);
    SliceOfPrefix(after, METADATA_OFFSET, 0, dst);
  }

  /** Bytes outside the framed span are the same. */
  lemma FramedSlice(mem: Image, after: Image, lo: nat, hi: nat, a: nat, b: nat)
    requires lo <= hi <= METADATA_OFFSET && Framed(mem, after, lo, hi)
    requires a <= b <= METADATA_OFFSET && (b <= lo || hi <= a)
    ensures after[a..b] == mem[a..b]
  {
    if b <= lo {
      assert after[a..b] == after[..lo][a..b] && mem[a..b] == mem[..lo][a..b];
    } else {
      SliceOfSlice(after, hi, METADATA_OFFSET, a - hi, b - hi);
      SliceOfSlice(mem, hi, METADATA_OFFSET, a - hi, b - hi);
    }
  }

  lemma RawIsOp(crc: Crc, mem: Image, op: FlashOp)
    ensures Expand(crc, Raw(op)) == [op] && Apply(mem, [op]) == ApplyOp(mem, op)
  {
    hide ApplyOp;
    assert [op][1..] == [];
  }

  /** Storing a changed record keeps the progress and the frame. */
  lemma StoredKeepsProgress(crc: Crc, mem: Image, p: Plan, img: seq<byte>, dst: nat, copied: nat)
    requires copied <= |img| && Room(dst, |img|)
    requires |p.writes| <= 1 && (p.writes != [] ==> p.writes[0].Put?)
    requires Progress(mem, img, dst, copied)
    ensures EraseSize(|img|) >= 0 && dst + EraseSize(|img|) <= METADATA_OFFSET
    ensures var after := RunWrites(crc, mem, p.writes);
            Progress(after, img, dst, copied) && Framed(mem, after, dst, dst + EraseSize(|img|))
  {
    hide StoreOps, Apply, Progress, Framed;
    if p.writes == [] {
      RunOne(crc, mem, Put(p.metadata));
      PutKeepsProgress(mem, mem, img, dst, copied);
    } else {
      RunOne(crc, mem, p.writes[0]);
      assert p.writes == [p.writes[0]];
      PutFramed(crc, mem, p.writes[0].record);
      PutKeepsProgress(mem, RunWrites(crc, mem, p.writes), img, dst, copied);
    }
  }

  /** The destination is the image, then erased to the end of its last sector. */
  ghost predicate Copied(img: seq<byte>, after: Image, dst: nat)
    requires Room(dst, |img|)
  {
    EraseSizeBounds(|img|);
    && after[dst..dst + |img|] == img
    && after[dst + |img|..dst + EraseSize(|img|)] == Fill(255, EraseSize(|img|) - |img|)
  }

  /** The page read from the source is the next page of the image. */
  lemma PageRead(mem: Image, src: nat, img: seq<byte>, copied: nat)
    requires src + |img| <= TOTAL_SIZE && copied <= |img| && mem[src..src + |img|] == img
    ensures mem[src + copied..src + copied + Chunk(img, copied)] + Fill(255, PAGE_SIZE - Chunk(img, copied)) == PageAt(img, copied)
  {
    SliceOfSlice(mem, src, src + |img|, copied, copied + Chunk(img, copied));
  }

  /** As long as erased cells are copied onto themselves, they stay erased. */
  lemma ErasedOntoItself(mem: Image, dst: nat, size: nat, copied: nat)
    requires Room(dst, size) && copied <= size && Progress(mem, Fill(255, size), dst, copied)
    ensures mem[dst..dst + size] == Fill(255, size)
  {
    EraseSizeBounds(size);
    hide EraseSize;
    var front, back := mem[dst..dst + copied], mem[dst + copied..dst + EraseSize(size)];
    assert mem[dst..dst + size] == front + back[..size - copied];
  }

  lemma FinishedCopy(after: Image, img: seq<byte>, dst: nat)
    requires Room(dst, |img|) && Progress(after, img, dst, |img|)
    ensures Copied(img, after, dst)
  {
    assert img[..|img|] == img;
  }

  lemma StoredWrites(crc: Crc, m: Metadata, state: u32, written: u32, lastError: u32)
    ensures var p := StoreCopyTransaction(crc, m, state, written, lastError);
            |p.writes| <= 1 && (p.writes != [] ==> p.writes[0].Put?) && (!p.ok ==> p.writes == [] && p.metadata == m)
  {
  }

  /** All that programming the next page achieves. */
  lemma PageProgrammed(crc: Crc, mem: Image, img: seq<byte>, dst: nat, copied: nat)
    requires copied < |img| && Room(dst, |img|) && Progress(mem, img, dst, copied)
    ensures copied % PAGE_SIZE == 0 && dst + copied + PAGE_SIZE <= METADATA_OFFSET
    ensures var op := Program(dst + copied, PageAt(img, copied));
            var after := ApplyOp(mem, op);
            && after[dst + copied..dst + copied + PAGE_SIZE] == PageAt(img, copied)
            && Progress(after, img, dst, copied + Chunk(img, copied)) && Written(mem, after, dst, |img|)
            && ExpandAll(crc, [Raw(op)]) == [op] && RunWrites(crc, mem, [Raw(op)]) == after
  {
    PageStep(mem, img, dst, copied);
    NextPageStored(mem, img, dst, copied);
    hide ApplyOp, PageAt, Progress, RunWrites, ExpandAll;
    var op := Program(dst + copied, PageAt(img, copied));
    RawIsOp(crc, mem, op);
    RunOne(crc, mem, Raw(op));
  }

  // ----- composing the written spans and the write lists -----

  lemma WrittenRefl(mem: Image, dst: nat, size: nat)
    requires Room(dst, size)
    ensures Written(mem, mem, dst, size)
  {
  }

  lemma WrittenTrans(a: Image, b: Image, c: Image, dst: nat, size: nat)
    requires Room(dst, size) && Written(a, b, dst, size) && Written(b, c, dst, size)
    ensures Written(a, c, dst, size)
  {
    EraseSizeBounds(size);
    hide EraseSize;
    FramedTrans(a, b, c, dst, dst + EraseSize(size));
  }

  lemma WrittenSlice(mem: Image, after: Image, dst: nat, size: nat, a: nat, b: nat)
    requires Room(dst, size) && Written(mem, after, dst, size)
    requires a <= b <= METADATA_OFFSET && (b <= dst || dst + SLOT_A_SIZE <= a)
    ensures after[a..b] == mem[a..b]
  {
    EraseSizeBounds(size);
    hide EraseSize;
    FramedSlice(mem, after, dst, dst + EraseSize(size), a, b);
  }

  lemma WipeStartsProgress(mem: Image, img: seq<byte>, dst: nat)
    requires Room(dst, |img|)
    ensures EraseSize(|img|) >= 0 && dst + EraseSize(|img|) <= METADATA_OFFSET
    ensures var after := ApplyOp(mem, Erase(dst, EraseSize(|img|)));
            Progress(after, img, dst, 0) && Written(mem, after, dst, |img|)
  {
    EraseStartsProgress(mem, img, dst);
  }

  lemma WritesJoin(crc: Crc, mem: Image, log: seq<FlashOp>, ws: seq<Write>, mem1: Image, log1: seq<FlashOp>, more: seq<Write>,
                   mem2: Image, log2: seq<FlashOp>)
    requires log1 == log + ExpandAll(crc, ws) && mem1 == RunWrites(crc, mem, ws)
    requires log2 == log1 + ExpandAll(crc, more) && mem2 == RunWrites(crc, mem1, more)
    ensures log2 == log + ExpandAll(crc, ws + more) && mem2 == RunWrites(crc, mem, ws + more)
  {
    hide RunWrites;
    ExpandConcat(crc, ws, more);
    RunConcat(crc, mem, ws, more);
    hide ExpandAll;
    assert log + ExpandAll(crc, ws) + ExpandAll(crc, more) == log + (ExpandAll(crc, ws) + ExpandAll(crc, more));
  }

  lemma AfterNothing(p: Plan)
    ensures After([], p) == p
  {
    assert [] + p.writes == p.writes;
  }

  lemma AfterAfter(a: seq<Write>, b: seq<Write>, p: Plan)
    ensures After(a, After(b, p)) == After(a + b, p)
  {
    assert a + (b + p.writes) == a + b + p.writes;
  }

  /** One turn of the copy loop, with `ws` already written. */
  lemma LoopStep(crc: Crc, m: Metadata, img: seq<byte>, dst: nat, copied: nat, next: nat, ws: seq<Write>)
    requires LoopReady(img, dst, copied) && copied < |img|
    ensures var now := copied + Chunk(img, copied);
            var w := [Raw(Program(dst + copied, PageAt(img, copied)))];
            var p := StoreCopyTransaction(crc, m, TXN_PROGRAMMING, now, RESULT_NONE);
            now <= |img| && now > copied &&
            After(ws, CopyLoop(crc, m, img, dst, copied, next)) ==
              if !(now >= next || now >= |img|) then After(ws + w, CopyLoop(crc, m, img, dst, now, next))
              else if !p.ok then Plan(ws + w, m, false)
              else After(ws + w + p.writes, CopyLoop(crc, p.metadata, img, dst, now, next + PROGRESS_STORE_BYTES))
  {
    hide PageAt, StoreCopyTransaction;
    var now := copied + Chunk(img, copied);
    var w := [Raw(Program(dst + copied, PageAt(img, copied)))];
    var p := StoreCopyTransaction(crc, m, TXN_PROGRAMMING, now, RESULT_NONE);
    if !(now >= next || now >= |img|) {
      AfterAfter(ws, w, CopyLoop(crc, m, img, dst, now, next));
    } else if p.ok {
      AfterAfter(ws, w + p.writes, CopyLoop(crc, p.metadata, img, dst, now, next + PROGRESS_STORE_BYTES));
      assert ws + (w + p.writes) == ws + w + p.writes;
    }
  }

  lemma LoopEnd(crc: Crc, m: Metadata, img: seq<byte>, dst: nat, next: nat, ws: seq<Write>)
    requires LoopReady(img, dst, |img|)
    ensures After(ws, CopyLoop(crc, m, img, dst, |img|, next)) == Plan(ws, m, true)
  {
    assert ws + [] == ws;
  }

  // ----- the whole copy -----

  /** The first writes keep the frame and the rest completes the copy: together they do both. */
  lemma ThenCompletes(crc: Crc, mem: Image, first: seq<Write>, rest: Plan, img: seq<byte>, dst: nat)
    requires Room(dst, |img|)
    requires Written(mem, RunWrites(crc, mem, first), dst, |img|)
    requires Completes(crc, RunWrites(crc, mem, first), rest, img, dst)
    ensures Completes(crc, mem, After(first, rest), img, dst)
  {
    hide RunWrites, Progress, Written;
    RunConcat(crc, mem, first, rest.writes);
    WrittenTrans(mem, RunWrites(crc, mem, first), RunWrites(crc, RunWrites(crc, mem, first), rest.writes), dst, |img|);
  }

  ghost predicate Completes(crc: Crc, mem: Image, p: Plan, img: seq<byte>, dst: nat)
    requires Room(dst, |img|)
  {
    && Written(mem, RunWrites(crc, mem, p.writes), dst, |img|)
    && (p.ok ==> Progress(RunWrites(crc, mem, p.writes), img, dst, |img|))
  }

  lemma NothingCompletes(crc: Crc, mem: Image, m: Metadata, img: seq<byte>, dst: nat, ok: bool)
    requires Room(dst, |img|) && (ok ==> Progress(mem, img, dst, |img|))
    ensures Completes(crc, mem, Plan([], m, ok), img, dst)
  {
    hide RunWrites, Progress, Written;
    RunOne(crc, mem, Put(m));
    WrittenRefl(mem, dst, |img|);
  }

  function PageWrite(img: seq<byte>, dst: nat, copied: nat): seq<Write>
    requires copied <= |img| && dst + |img| + PAGE_SIZE <= TOTAL_SIZE
  {
    [Raw(Program(dst + copied, PageAt(img, copied)))]
  }

  /** From any point of the copy on, the remaining writes finish it and stay in the frame. */
  lemma {:induction false} CopyLoopCompletes(crc: Crc, mem: Image, m: Metadata, img: seq<byte>, dst: nat, copied: nat, next: nat)
    requires Room(dst, |img|) && copied <= |img| && Progress(mem, img, dst, copied)
    ensures Completes(crc, mem, CopyLoop(crc, m, img, dst, copied, next), img, dst)
    decreases |img| - copied, 1
  {
    hide RunWrites, PageAt, Progress, Written, StoreCopyTransaction, Completes, After, ApplyOp, ExpandAll, Chunk;
    if copied == |img| {
      NothingCompletes(crc, mem, m, img, dst, true);
    } else {
      ChunkAdvances(img, copied);
      var now, w := copied + Chunk(img, copied), PageWrite(img, dst, copied);
      PageProgrammed(crc, mem, img, dst, copied);
      if now >= next || now >= |img| {
        RecordingCompletes(crc, mem, w, m, img, dst, copied, now, next);
      } else {
        CopyLoopCompletes(crc, RunWrites(crc, mem, w), m, img, dst, now, next);
        ThenCompletes(crc, mem, w, CopyLoop(crc, m, img, dst, now, next), img, dst);
      }
    }
  }

  /** The same, when a progress record follows the page. */
  lemma RecordingCompletes(crc: Crc, mem: Image, w: seq<Write>, m: Metadata, img: seq<byte>, dst: nat, copied: nat, now: nat, next: nat)
    requires Room(dst, |img|) && copied < now <= |img|
    requires Progress(RunWrites(crc, mem, w), img, dst, now) && Written(mem, RunWrites(crc, mem, w), dst, |img|)
    ensures var p := StoreCopyTransaction(crc, m, TXN_PROGRAMMING, now, RESULT_NONE);
            Completes(crc, mem,
              if p.ok then After(w + p.writes, CopyLoop(crc, p.metadata, img, dst, now, next + PROGRESS_STORE_BYTES))
              else Plan(w, m, false), img, dst)
    decreases |img| - copied, 0
  {
    hide RunWrites, Progress, Written, StoreCopyTransaction, CopyLoop, Completes, After;
    var p := StoreCopyTransaction(crc, m, TXN_PROGRAMMING, now, RESULT_NONE);
    var mem1 := RunWrites(crc, mem, w);
    StoredWrites(crc, m, TXN_PROGRAMMING, now, RESULT_NONE);
    StoredKeepsWritten(crc, mem1, p, img, dst, now);
    if p.ok {
      var rest := CopyLoop(crc, p.metadata, img, dst, now, next + PROGRESS_STORE_BYTES);
      CopyLoopCompletes(crc, RunWrites(crc, mem1, p.writes), p.metadata, img, dst, now, next + PROGRESS_STORE_BYTES);
      RecordThenCompletes(crc, mem, w, p.writes, rest, img, dst);
    } else {
      PageThenFails(crc, mem, w, m, img, dst);
    }
  }

  lemma RecordThenCompletes(crc: Crc, mem: Image, w: seq<Write>, record: seq<Write>, rest: Plan, img: seq<byte>, dst: nat)
    requires Room(dst, |img|)
    requires var mem1 := RunWrites(crc, mem, w);
             var mem2 := RunWrites(crc, mem1, record);
             Written(mem, mem1, dst, |img|) && Written(mem1, mem2, dst, |img|) && Completes(crc, mem2, rest, img, dst)
    ensures Completes(crc, mem, After(w + record, rest), img, dst)
  {
    hide RunWrites, Written, Completes, After;
    ThenCompletes(crc, RunWrites(crc, mem, w), record, rest, img, dst);
    ThenCompletes(crc, mem, w, After(record, rest), img, dst);
    AfterAfter(w, record, rest);
  }

  lemma PageThenFails(crc: Crc, mem: Image, w: seq<Write>, m: Metadata, img: seq<byte>, dst: nat)
    requires Room(dst, |img|) && Written(mem, RunWrites(crc, mem, w), dst, |img|)
    ensures Completes(crc, mem, Plan(w, m, false), img, dst)
  {
  }

  lemma StoredKeepsWritten(crc: Crc, mem: Image, p: Plan, img: seq<byte>, dst: nat, copied: nat)
    requires copied <= |img| && Room(dst, |img|)
    requires |p.writes| <= 1 && (p.writes != [] ==> p.writes[0].Put?)
    requires Progress(mem, img, dst, copied)
    ensures var after := RunWrites(crc, mem, p.writes);
            Progress(after, img, dst, copied) && Written(mem, after, dst, |img|)
  {
    StoredKeepsProgress(crc, mem, p, img, dst, copied);
  }

  /** A record stored on the way: the copy goes on from there, or stops with what it has written. */
  lemma RecordOnTheWay(crc: Crc, mem: Image, ws: seq<Write>, m: Metadata, state: u32, img: seq<byte>, dst: nat)
    requires Room(dst, |img|) && Written(mem, RunWrites(crc, mem, ws), dst, |img|)
    requires Progress(RunWrites(crc, mem, ws), img, dst, 0)
    ensures var p := StoreCopyTransaction(crc, m, state, 0, RESULT_NONE);
            && Written(mem, RunWrites(crc, mem, ws + p.writes), dst, |img|)
            && Progress(RunWrites(crc, mem, ws + p.writes), img, dst, 0)
            && (!p.ok ==> ws + p.writes == ws)
  {
    hide RunWrites, Progress, Written, StoreCopyTransaction;
    var p := StoreCopyTransaction(crc, m, state, 0, RESULT_NONE);
    var mem1 := RunWrites(crc, mem, ws);
    StoredWrites(crc, m, state, 0, RESULT_NONE);
    StoredKeepsWritten(crc, mem1, p, img, dst, 0);
    RunConcat(crc, mem, ws, p.writes);
    WrittenTrans(mem, mem1, RunWrites(crc, mem1, p.writes), dst, |img|);
  }

  lemma WipeIsWritten(crc: Crc, mem: Image, img: seq<byte>, dst: nat)
    requires Room(dst, |img|)
    ensures EraseSize(|img|) >= 0 && dst + EraseSize(|img|) <= METADATA_OFFSET
    ensures var after := RunWrites(crc, mem, [Raw(Erase(dst, EraseSize(|img|)))]);
            Written(mem, after, dst, |img|) && Progress(after, img, dst, 0)
  {
    WipeStartsProgress(mem, img, dst);
    hide RunWrites, Progress, Written, ApplyOp, EraseSize;
    RawIsOp(crc, mem, Erase(dst, EraseSize(|img|)));
    RunOne(crc, mem, Raw(Erase(dst, EraseSize(|img|))));
  }

  /** What a slot copy achieves: it writes inside its frame, and when it succeeds the destination is the image. */
  ghost predicate CopyAchieves(crc: Crc, mem: Image, p: Plan, source: u32, destination: u32, size: u32)
    requires CopyFits(source, destination, size)
  {
    var after := RunWrites(crc, mem, p.writes);
    && Written(mem, after, SlotOffset(destination), size)
    && (p.ok ==> Copied(CopySource(mem, source, destination, size), after, SlotOffset(destination)))
  }

  lemma CompletesIsCopied(crc: Crc, mem: Image, p: Plan, source: u32, destination: u32, size: u32)
    requires CopyFits(source, destination, size)
    requires Completes(crc, mem, p, CopySource(mem, source, destination, size), SlotOffset(destination))
    ensures CopyAchieves(crc, mem, p, source, destination, size)
  {
    hide RunWrites, Progress, Copied;
    if p.ok {
      FinishedCopy(RunWrites(crc, mem, p.writes), CopySource(mem, source, destination, size), SlotOffset(destination));
    }
  }

  lemma StopsAchieve(crc: Crc, mem: Image, ws: seq<Write>, m: Metadata, source: u32, destination: u32, size: u32)
    requires CopyFits(source, destination, size)
    requires Written(mem, RunWrites(crc, mem, ws), SlotOffset(destination), size)
    ensures CopyAchieves(crc, mem, Plan(ws, m, false), source, destination, size)
  {
  }

  /** The plan of a slot copy achieves the copy, and touches nothing else. */
  lemma CopySlotCompletes(crc: Crc, mem: Image, m: Metadata, source: u32, destination: u32, size: u32)
    requires CopyFits(source, destination, size)
    ensures CopyAchieves(crc, mem, CopySlotPlan(crc, mem, m, source, destination, size), source, destination, size)
  {
    EraseSizeBounds(size);
    var img, dst := CopySource(mem, source, destination, size), SlotOffset(destination);
    var wipe := [Raw(Erase(dst, EraseSize(size)))];
    WipeIsWritten(crc, mem, img, dst);
    var p1 := StoreCopyTransaction(crc, m, TXN_ERASED_ACTIVE, 0, RESULT_NONE);
    RecordOnTheWay(crc, mem, wipe, m, TXN_ERASED_ACTIVE, img, dst);
    hide RunWrites, Progress, Written, StoreCopyTransaction, CopyLoop, EraseSize, CopyAchieves;
    if p1.ok {
      FromErased(crc, mem, wipe + p1.writes, p1.metadata, source, destination, size);
    } else {
      StopsAchieve(crc, mem, wipe, m, source, destination, size);
    }
  }

  /** From the second progress record on. */
  lemma FromErased(crc: Crc, mem: Image, ws: seq<Write>, m: Metadata, source: u32, destination: u32, size: u32)
    requires CopyFits(source, destination, size)
    requires var img := CopySource(mem, source, destination, size);
             var mem1 := RunWrites(crc, mem, ws);
             Written(mem, mem1, SlotOffset(destination), size) && Progress(mem1, img, SlotOffset(destination), 0)
    ensures var img := CopySource(mem, source, destination, size);
            var p := StoreCopyTransaction(crc, m, TXN_PROGRAMMING, 0, RESULT_NONE);
            CopyAchieves(crc, mem,
              if p.ok then After(ws + p.writes, CopyLoop(crc, p.metadata, img, SlotOffset(destination), 0, PROGRESS_STORE_BYTES))
              else Plan(ws, m, false), source, destination, size)
  {
    hide RunWrites, Progress, Written, StoreCopyTransaction, CopyLoop, CopyAchieves, Completes, After;
    var img, dst := CopySource(mem, source, destination, size), SlotOffset(destination);
    var p := StoreCopyTransaction(crc, m, TXN_PROGRAMMING, 0, RESULT_NONE);
    RecordOnTheWay(crc, mem, ws, m, TXN_PROGRAMMING, img, dst);
    if p.ok {
      var all := ws + p.writes;
      CopyLoopCompletes(crc, RunWrites(crc, mem, all), p.metadata, img, dst, 0, PROGRESS_STORE_BYTES);
      var loop := CopyLoop(crc, p.metadata, img, dst, 0, PROGRESS_STORE_BYTES);
      ThenCompletes(crc, mem, all, loop, img, dst);
      CompletesIsCopied(crc, mem, After(all, loop), source, destination, size);
    } else {
      StopsAchieve(crc, mem, ws, m, source, destination, size);
    }
  }

  // ----- recorded progress -----

  /** The byte counts recorded by a list of writes. */
  function RecordedProgress(ws: seq<Write>): seq<nat> {
    if ws == [] then []
    else (if ws[0].Put? then [ws[0].record.ext.copyWritten] else []) + RecordedProgress(ws[1..])
  }

  lemma {:induction false} RecordedConcat(a: seq<Write>, b: seq<Write>)
    ensures RecordedProgress(a + b) == RecordedProgress(a) + RecordedProgress(b)
  {
    if a == [] {
      assert a + b == b;
    } else {
      assert (a + b)[0] == a[0] && (a + b)[1..] == a[1..] + b;
      RecordedConcat(a[1..], b);
    }
  }

  function Before(s: seq<nat>, lo: nat, i: nat): nat
    requires i <= |s|
  {
    if i == 0 then lo else s[i - 1]
  }

  /** Strictly increasing, above lo, and ending at hi (or empty). */
  ghost predicate ClimbsTo(s: seq<nat>, lo: nat, hi: nat) {
    && (forall i :: 0 <= i < |s| ==> Before(s, lo, i) < s[i] <= hi)
    && (s != [] ==> s[|s| - 1] == hi)
  }

  /** A plan that succeeds, whose recorded progress strictly increases from `lo`, never exceeds `hi` and ends at it. */
  ghost predicate Climbs(p: Plan, lo: nat, hi: nat) {
    && p.ok && p.metadata.ext.copyTxnState != TXN_NONE && p.metadata.ext.copySize == hi
    && (lo < hi ==> RecordedProgress(p.writes) != [])
    && ClimbsTo(RecordedProgress(p.writes), lo, hi)
  }

  /** The progress recorded in the loop strictly increases, never exceeds the image size and ends at it. */
  lemma {:induction false} ProgressClimbs(crc: Crc, m: Metadata, img: seq<byte>, dst: nat, copied: nat, next: nat)
    requires LoopReady(img, dst, copied)
    requires m.ext.copyTxnState != TXN_NONE && m.ext.copySize == |img|
    ensures Climbs(CopyLoop(crc, m, img, dst, copied, next), copied, |img|)
    decreases |img| - copied, 1
  {
    hide PageAt, StoreCopyTransaction, Climbs, RecordedProgress, After, Chunk;
    if copied == |img| {
      NothingClimbs(m, copied);
    } else {
      ChunkAdvances(img, copied);
      var now, w := copied + Chunk(img, copied), PageWrite(img, dst, copied);
      if now >= next || now >= |img| {
        RecordingClimbs(crc, m, img, dst, copied, now, next, w);
      } else {
        ProgressClimbs(crc, m, img, dst, now, next);
        SilentClimb(w, CopyLoop(crc, m, img, dst, now, next), copied, now, |img|);
      }
    }
  }

  lemma ChunkAdvances(img: seq<byte>, copied: nat)
    requires copied < |img|
    ensures 0 < Chunk(img, copied) <= |img| - copied
  {
  }

  lemma NothingClimbs(m: Metadata, total: nat)
    requires m.ext.copyTxnState != TXN_NONE && m.ext.copySize == total
    ensures Climbs(Plan([], m, true), total, total)
  {
  }

  lemma RecordingClimbs(crc: Crc, m: Metadata, img: seq<byte>, dst: nat, copied: nat, now: nat, next: nat, w: seq<Write>)
    requires LoopReady(img, dst, copied) && copied < now <= |img| && |w| == 1 && w[0].Raw?
    requires m.ext.copyTxnState != TXN_NONE && m.ext.copySize == |img|
    ensures var p := StoreCopyTransaction(crc, m, TXN_PROGRAMMING, now, RESULT_NONE);
            p.ok && Climbs(After(w + p.writes, CopyLoop(crc, p.metadata, img, dst, now, next + PROGRESS_STORE_BYTES)), copied, |img|)
    decreases |img| - copied, 0
  {
    hide PageAt, StoreCopyTransaction, Climbs, RecordedProgress, After, CopyLoop;
    var p := StoreCopyTransaction(crc, m, TXN_PROGRAMMING, now, RESULT_NONE);
    UpdatedFields(crc, m, now);
    ProgressClimbs(crc, p.metadata, img, dst, now, next + PROGRESS_STORE_BYTES);
    RecordedClimb(w, p, CopyLoop(crc, p.metadata, img, dst, now, next + PROGRESS_STORE_BYTES), copied, now, |img|);
  }

  lemma RecordedClimb(w: seq<Write>, p: Plan, rest: Plan, copied: nat, now: nat, total: nat)
    requires |w| == 1 && w[0].Raw? && RecordedProgress(p.writes) == [now]
    requires copied < now <= total && Climbs(rest, now, total)
    ensures Climbs(After(w + p.writes, rest), copied, total)
  {
    hide ClimbsTo;
    PagesRecordNothing(w);
    RecordedConcat(w, p.writes);
    RecordedConcat(w + p.writes, rest.writes);
    assert [] + [now] == [now];
    ClimbsNext(RecordedProgress(rest.writes), copied, now, total);
  }

  lemma SilentClimb(w: seq<Write>, rest: Plan, copied: nat, now: nat, total: nat)
    requires |w| == 1 && w[0].Raw?
    requires copied < now < total && Climbs(rest, now, total)
    ensures Climbs(After(w, rest), copied, total)
  {
    hide ClimbsTo;
    PagesRecordNothing(w);
    RecordedConcat(w, rest.writes);
    assert [] + RecordedProgress(rest.writes) == RecordedProgress(rest.writes);
    ClimbsFromLower(RecordedProgress(rest.writes), copied, now, total);
  }

  lemma PagesRecordNothing(w: seq<Write>)
    requires |w| == 1 && w[0].Raw?
    ensures RecordedProgress(w) == []
  {
    assert w[1..] == [];
  }

  lemma ClimbsNext(s: seq<nat>, lo: nat, mid: nat, hi: nat)
    requires lo < mid <= hi && ClimbsTo(s, mid, hi) && (s == [] ==> mid == hi)
    ensures ClimbsTo([mid] + s, lo, hi)
  {
    var t := [mid] + s;
    forall i | 0 <= i < |t| ensures Before(t, lo, i) < t[i] <= hi {
      if i > 0 { assert Before(s, mid, i - 1) < s[i - 1] <= hi; }
    }
  }

  lemma ClimbsFromLower(s: seq<nat>, lo: nat, mid: nat, hi: nat)
    requires lo < mid && ClimbsTo(s, mid, hi)
    ensures ClimbsTo(s, lo, hi)
  {
    forall i | 0 <= i < |s| ensures Before(s, lo, i) < s[i] <= hi {
      assert Before(s, mid, i) < s[i] <= hi;
    }
  }

  lemma UpdatedFields(crc: Crc, m: Metadata, written: u32)
    requires m.ext.copyTxnState != TXN_NONE && written <= m.ext.copySize
    ensures var p := StoreCopyTransaction(crc, m, TXN_PROGRAMMING, written, RESULT_NONE);
            && p.ok && p.writes == [Put(p.metadata)] && RecordedProgress(p.writes) == [written]
            && p.metadata.ext.copyTxnState == TXN_PROGRAMMING && p.metadata.ext.copyWritten == written
            && p.metadata.ext.copySize == m.ext.copySize
  {
    var p := StoreCopyTransaction(crc, m, TXN_PROGRAMMING, written, RESULT_NONE);
    assert p.writes[1..] == [];
  }
}
