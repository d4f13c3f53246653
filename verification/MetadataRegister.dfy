/** The metadata log behaves as one register that survives power loss: operations on it are atomic. */
module MetadataRegister {
  import opened Outcomes
  import opened Bytes
  import opened Flash
  import opened Metadata
  import opened MetadataLog

  // ----- operations of the application -----

  datatype Op =
    | MarkPendingOp(slot: u32, size: u32, imageCrc: u32)
    | ConfirmActiveOp
    | SetBootModeOp(mode: u32)
    | SetFaultInjectionOp(flags: u32)
    | BeginCopyOp(source: u32, destination: u32, size: u32, imageCrc: u32)
    | UpdateCopyOp(state: u32, written: u32, lastError: u32)
    | FinishCopyOp
    | FailCopyOp(lastError: u32)
    | ClearCopyOp
    | RepairCopies

  /** The change an operation makes to the loaded record; None when it is rejected. */
  function Mutate(crc: Crc, op: Op, m: Metadata): Option<Metadata> {
    match op
    case MarkPendingOp(slot, size, imageCrc) => MarkPending(crc, m, slot, size, imageCrc)
    case ConfirmActiveOp => ConfirmActive(crc, m)
    case SetBootModeOp(mode) => SetBootMode(crc, m, mode)
    case SetFaultInjectionOp(flags) => SetFaultInjection(crc, m, flags)
    case BeginCopyOp(source, destination, size, imageCrc) => BeginCopy(crc, m, source, destination, size, imageCrc)
    case UpdateCopyOp(state, written, lastError) => UpdateCopy(crc, m, state, written, lastError)
    case FinishCopyOp => FinishCopy(crc, m)
    case FailCopyOp(lastError) => FailCopy(crc, m, lastError)
    case ClearCopyOp => ClearCopyTransaction(crc, m)
    case RepairCopies => Some(Committed(crc, m))
  }

  /** The records an operation stores, in order: one, except that a repair stores two. */
  function Records(crc: Crc, op: Op, m: Metadata): seq<Metadata> {
    match Mutate(crc, op, m)
    case None => []
    case Some(r) => if op.RepairCopies? then [r, Committed(crc, r)] else [r]
  }

  function AllOps(crc: Crc, records: seq<Metadata>): seq<FlashOp> {
    if records == [] then [] else StoreOps(crc, records[0]) + AllOps(crc, records[1..])
  }

  /** Load, modify, store. When a write is refused, what has been written is a prefix of the operation's writes. */
  method Perform(cfg: Config, dev: Device, op: Op) returns (ok: bool)
    requires dev.Valid()
    modifies dev`log, dev.mem
    ensures var all := AllOps(cfg.crc, Records(cfg.crc, op, Load(cfg, old(dev.Cells()))));
            && (exists k :: 0 <= k <= |all| && dev.log == old(dev.log) + all[..k]
                         && dev.Cells() == Apply(old(dev.Cells()), all[..k]) && (k < |all| ==> !ok && dev.core1Online))
            && (ok ==> Records(cfg.crc, op, Load(cfg, old(dev.Cells()))) != []
                       && dev.log == old(dev.log) + all && dev.Cells() == Apply(old(dev.Cells()), all))
  {
    hide StoreOps, Load, Mutate, Apply, Records, AllOps, Committed;
    ghost var mem, log := dev.Cells(), dev.log;
    var loaded, metadata := LoadMetadata(cfg, dev);
    ghost var all := AllOps(cfg.crc, Records(cfg.crc, op, metadata));
    var changed := Mutate(cfg.crc, op, metadata);
    if changed.None? {
      ApplyNothing(mem);
      RejectedStoresNothing(cfg.crc, op, metadata);
      assert all[..0] == [] && log + [] == log;
      return false;
    }
    ghost var first := StoreOps(cfg.crc, changed.value);
    AllOpsSplit(cfg.crc, op, metadata);
    ok := StoreMetadata(cfg, dev, changed.value);
    if !ok {
      ghost var k :| 0 <= k < 2 && dev.log == log + first[..k] && dev.Cells() == Apply(mem, first[..k]);
      assert all[..k] == first[..k];
      return false;
    }
    assert all[..2] == first;
    if !op.RepairCopies? {
      assert all[..|all|] == all;
      return true;
    }
    ghost var middle := dev.Cells();
    var again := Committed(cfg.crc, changed.value);
    ghost var second := StoreOps(cfg.crc, again);
    ok := StoreMetadata(cfg, dev, again);
    if !ok {
      ghost var k :| 0 <= k < 2 && dev.log == log + first + second[..k] && dev.Cells() == Apply(middle, second[..k]);
      ApplyConcat(mem, first, second[..k]);
      assert all[..2 + k] == first + second[..k];
      assert log + first + second[..k] == log + all[..2 + k];
      return false;
    }
    ApplyConcat(mem, first, second);
    assert log + first + second == log + all && all[..|all|] == all;
  }

  lemma RejectedStoresNothing(crc: Crc, op: Op, m: Metadata)
    requires Mutate(crc, op, m).None?
    ensures AllOps(crc, Records(crc, op, m)) == []
  {
  }

  lemma ApplyNothing(mem: Image)
    ensures Apply(mem, []) == mem
  {
  }

  lemma AllOpsSplit(crc: Crc, op: Op, m: Metadata)
    requires Mutate(crc, op, m).Some?
    ensures Records(crc, op, m) != []
    ensures var r := Mutate(crc, op, m).value;
            AllOps(crc, Records(crc, op, m))
            == if op.RepairCopies? then StoreOps(crc, r) + StoreOps(crc, Committed(crc, r)) else StoreOps(crc, r)
  {
    var r := Mutate(crc, op, m).value;
    var again := Committed(crc, r);
    assert [r][1..] == [] && [r, again][1..] == [again] && [again][1..] == [];
    assert AllOps(crc, [again]) == StoreOps(crc, again) + AllOps(crc, []);
    assert AllOps(crc, [r]) == StoreOps(crc, r) + AllOps(crc, []);
  }

  // ----- the kept invariant -----

  /** A valid copy at index i has sequence parity i and needs no upgrade. */
  ghost predicate GoodCopy(copy: Option<Metadata>, i: nat) {
    copy.Some? ==> CopyIndex(copy.value) == i && !NeedsUpgrade(copy.value)
  }

  ghost predicate LogInv(crc: Crc, mem: Image) {
    forall i :: 0 <= i < 2 ==> GoodCopy(Live(crc, mem, i), i)
  }

  ghost predicate HasRecord(crc: Crc, mem: Image) {
    Live(crc, mem, 0).Some? || Live(crc, mem, 1).Some?
  }

  /** A record that can be stored after m: one sequence step without wrapping, and read back as it is. */
  ghost predicate Storable(crc: Crc, m: Metadata, next: Metadata) {
    && m.core.sequence < WORD_LIMIT - 1
    && next.core.sequence == m.core.sequence + 1
    && Accepted(crc, next)
  }

  /** Sealed, and read back as it is, without an upgrade. */
  ghost predicate Accepted(crc: Crc, m: Metadata) {
    Sealed(crc, m) && WellShaped(m) && Distinct(crc, m)
  }

  /** What a load returns for a pair of good copies. */
  function Pick(cfg: Config, a: Option<Metadata>, b: Option<Metadata>): Metadata {
    match Newer(a, b)
    case Some(m) => m
    case None => Default(cfg)
  }

  lemma LoadUnderInv(cfg: Config, mem: Image)
    requires LogInv(cfg.crc, mem)
    ensures Load(cfg, mem) == Pick(cfg, Live(cfg.crc, mem, 0), Live(cfg.crc, mem, 1))
  {
    LoadIsNewest(cfg, mem);
  }

  lemma LiveIsValid(crc: Crc, mem: Image, i: nat)
    requires i < 2 && Live(crc, mem, i).Some?
    ensures IsValid(crc, Live(crc, mem, i).value)
  {
  }

  lemma DefaultIsShaped(cfg: Config)
    ensures WellShaped(Default(cfg)) && Sealed(cfg.crc, Default(cfg)) && Default(cfg).core.sequence <= 1
  {
    var d := DefaultMetadata(cfg.crc);
    SealingIsIdempotent(cfg.crc, d);
    SealingIsIdempotent(cfg.crc, Metadata(d.core.(metadataCrc32 := 0), d.ext.(metadataExtCrc32 := 0), d.ab.(metadataAbCrc32 := 0)));
    CommittedFollows(cfg.crc, d, Metadata(d.core.(pendingSlot := SLOT_NONE, bootAttempts := 0), ClearCopy(d.ext),
      d.ab.(bootMode := MODE_DIRECT_AB, previousSlot := SLOT_NONE, bootGeneration := 0, bootCapabilities := CAP_BOTH)));
  }

  /** A load under the invariant returns a sealed record every reader accepts the shape of. */
  lemma LoadIsShaped(cfg: Config, mem: Image)
    requires LogInv(cfg.crc, mem)
    ensures WellShaped(Load(cfg, mem)) && Sealed(cfg.crc, Load(cfg, mem))
  {
    LoadUnderInv(cfg, mem);
    DefaultIsShaped(cfg);
    CopyIsShaped(cfg.crc, mem, 0);
    CopyIsShaped(cfg.crc, mem, 1);
    hide Live, Load, Default, WellShaped, Sealed, LogInv;
  }

  lemma CopyIsShaped(crc: Crc, mem: Image, i: nat)
    requires i < 2 && LogInv(crc, mem)
    ensures Live(crc, mem, i).Some? ==> WellShaped(Live(crc, mem, i).value) && Sealed(crc, Live(crc, mem, i).value)
  {
    hide Live, IsValid, NeedsUpgrade, WellShaped, Sealed;
    if Live(crc, mem, i).Some? {
      LiveIsValid(crc, mem, i);
      ValidIsShaped(crc, Live(crc, mem, i).value);
    }
  }

  lemma ValidIsShaped(crc: Crc, m: Metadata)
    requires IsValid(crc, m) && !NeedsUpgrade(m)
    ensures WellShaped(m) && Sealed(crc, m)
  {
  }

  /** Overwriting the copy whose turn it is: whatever it then holds, the old record, the new one or nothing,
      the load returns the old record or the new one. */
  lemma PairStep(cfg: Config, a: Option<Metadata>, b: Option<Metadata>, a': Option<Metadata>, b': Option<Metadata>, next: Metadata)
    requires GoodCopy(a, 0) && GoodCopy(b, 1)
    requires Pick(cfg, a, b).core.sequence < WORD_LIMIT - 1
    requires next.core.sequence == Pick(cfg, a, b).core.sequence + 1 && !NeedsUpgrade(next)
    requires CopyIndex(next) == 0 ==> b' == b && a' in {None, a, Some(next)}
    requires CopyIndex(next) == 1 ==> a' == a && b' in {None, b, Some(next)}
    ensures GoodCopy(a', 0) && GoodCopy(b', 1)
    ensures Pick(cfg, a', b') in {Pick(cfg, a, b), next}
    ensures a.Some? || b.Some? ==> a'.Some? || b'.Some?
    ensures (if CopyIndex(next) == 0 then a' else b') == Some(next) ==> Pick(cfg, a', b') == next
  {
    hide Default, NeedsUpgrade;
    if CopyIndex(next) == 0 {
      FirstTurn(cfg, a, b, a', next);
    } else {
      SecondTurn(cfg, a, b, b', next);
    }
  }

  lemma FirstTurn(cfg: Config, a: Option<Metadata>, b: Option<Metadata>, a': Option<Metadata>, next: Metadata)
    requires GoodCopy(a, 0) && GoodCopy(b, 1) && CopyIndex(next) == 0 && !NeedsUpgrade(next)
    requires next.core.sequence == Pick(cfg, a, b).core.sequence + 1 && a' in {None, a, Some(next)}
    ensures GoodCopy(a', 0) && Pick(cfg, a', b) in {Pick(cfg, a, b), next} && (a.Some? || b.Some? ==> a'.Some? || b.Some?)
    ensures a' == Some(next) ==> Pick(cfg, a', b) == next
  {
    hide Default, NeedsUpgrade;
  }

  lemma SecondTurn(cfg: Config, a: Option<Metadata>, b: Option<Metadata>, b': Option<Metadata>, next: Metadata)
    requires GoodCopy(a, 0) && GoodCopy(b, 1) && CopyIndex(next) == 1 && !NeedsUpgrade(next)
    requires next.core.sequence == Pick(cfg, a, b).core.sequence + 1 && b' in {None, b, Some(next)}
    ensures GoodCopy(b', 1) && Pick(cfg, a, b') in {Pick(cfg, a, b), next} && (a.Some? || b.Some? ==> a.Some? || b'.Some?)
    ensures b' == Some(next) ==> Pick(cfg, a, b') == next
  {
    hide Default, NeedsUpgrade;
  }

  /** Whenever the power fails while a record is stored, the next load returns the record from before or the new one. */
  lemma DurableStep(cfg: Config, mem: Image, next: Metadata, after: Image)
    requires LogInv(cfg.crc, mem) && Storable(cfg.crc, Load(cfg, mem), next)
    requires CutDuring(cfg.crc, mem, StoreOps(cfg.crc, next), after)
    ensures LogInv(cfg.crc, after)
    ensures Load(cfg, after) in {Load(cfg, mem), next}
    ensures HasRecord(cfg.crc, mem) ==> HasRecord(cfg.crc, after)
    ensures SlotsKept(mem, after)
  {
    hide Live, Load, StoreOps, CutDuring, Default, Sealed, WellShaped, Distinct, IsValid;
    StoreCut(cfg.crc, mem, next, after);
    SealedIsAcceptedIff(cfg.crc, next);
    LoadUnderInv(cfg, mem);
    PairStep(cfg, Live(cfg.crc, mem, 0), Live(cfg.crc, mem, 1), Live(cfg.crc, after, 0), Live(cfg.crc, after, 1), next);
    LoadUnderInv(cfg, after);
  }

  lemma DurableComplete(cfg: Config, mem: Image, next: Metadata)
    requires LogInv(cfg.crc, mem) && Storable(cfg.crc, Load(cfg, mem), next)
    ensures LogInv(cfg.crc, Apply(mem, StoreOps(cfg.crc, next)))
    ensures Load(cfg, Apply(mem, StoreOps(cfg.crc, next))) == next
    ensures HasRecord(cfg.crc, Apply(mem, StoreOps(cfg.crc, next)))
    ensures SlotsKept(mem, Apply(mem, StoreOps(cfg.crc, next)))
  {
    hide Live, Load, StoreOps, Apply, Default, Sealed, WellShaped, Distinct, IsValid;
    var after := Apply(mem, StoreOps(cfg.crc, next));
    StoreComplete(cfg.crc, mem, next);
    SealedIsAcceptedIff(cfg.crc, next);
    LoadUnderInv(cfg, mem);
    PairStep(cfg, Live(cfg.crc, mem, 0), Live(cfg.crc, mem, 1), Live(cfg.crc, after, 0), Live(cfg.crc, after, 1), next);
    LoadUnderInv(cfg, after);
  }

  // ----- whole runs -----

  /** Each record can be stored after the one before it. */
  ghost predicate AllStorable(crc: Crc, m: Metadata, records: seq<Metadata>)
    decreases |records|
  {
    records == [] || (Storable(crc, m, records[0]) && AllStorable(crc, records[0], records[1..]))
  }

  function StoreAll(crc: Crc, mem: Image, records: seq<Metadata>): Image
    decreases |records|
  {
    if records == [] then mem else StoreAll(crc, Apply(mem, StoreOps(crc, records[0])), records[1..])
  }

  ghost predicate CutWhileStoring(crc: Crc, mem: Image, records: seq<Metadata>, after: Image)
    decreases |records|
  {
    || after == mem
    || (records != [] && (CutDuring(crc, mem, StoreOps(crc, records[0]), after)
                          || CutWhileStoring(crc, Apply(mem, StoreOps(crc, records[0])), records[1..], after)))
  }

  lemma {:induction false} AllOpsStoreAll(crc: Crc, mem: Image, records: seq<Metadata>)
    ensures Apply(mem, AllOps(crc, records)) == StoreAll(crc, mem, records)
    decreases |records|
  {
    hide ApplyOp, StoreOps;
    if records != [] {
      ApplyConcat(mem, StoreOps(crc, records[0]), AllOps(crc, records[1..]));
      AllOpsStoreAll(crc, Apply(mem, StoreOps(crc, records[0])), records[1..]);
    }
  }

  /** Every flash step at which the power can fail is inside the storing of some record. */
  lemma {:induction false} CutIsInSomeRecord(crc: Crc, mem: Image, records: seq<Metadata>, after: Image)
    requires CutDuring(crc, mem, AllOps(crc, records), after)
    ensures CutWhileStoring(crc, mem, records, after)
    decreases |records|
  {
    hide StoreOps, Apply, Torn, ApplyOp;
    if after != mem && records != [] {
      CutOfConcat(crc, mem, StoreOps(crc, records[0]), AllOps(crc, records[1..]), after);
      if !CutDuring(crc, mem, StoreOps(crc, records[0]), after) {
        CutIsInSomeRecord(crc, Apply(mem, StoreOps(crc, records[0])), records[1..], after);
      }
    }
  }

  function LastOf(m: Metadata, records: seq<Metadata>): Metadata {
    if records == [] then m else records[|records| - 1]
  }

  lemma {:induction false} CutIsOldOrStored(cfg: Config, mem: Image, records: seq<Metadata>, after: Image)
    requires LogInv(cfg.crc, mem) && AllStorable(cfg.crc, Load(cfg, mem), records)
    requires CutWhileStoring(cfg.crc, mem, records, after)
    ensures LogInv(cfg.crc, after)
    ensures Load(cfg, after) == Load(cfg, mem) || Load(cfg, after) in records
    ensures HasRecord(cfg.crc, mem) ==> HasRecord(cfg.crc, after)
    decreases |records|
  {
    hide Load, LogInv, StoreOps, Apply, Storable, HasRecord, CutDuring;
    if after != mem {
      if CutDuring(cfg.crc, mem, StoreOps(cfg.crc, records[0]), after) {
        DurableStep(cfg, mem, records[0], after);
      } else {
        DurableComplete(cfg, mem, records[0]);
        CutIsOldOrStored(cfg, Apply(mem, StoreOps(cfg.crc, records[0])), records[1..], after);
      }
    }
  }

  lemma {:induction false} CompletedIsLast(cfg: Config, mem: Image, records: seq<Metadata>)
    requires LogInv(cfg.crc, mem) && AllStorable(cfg.crc, Load(cfg, mem), records)
    ensures LogInv(cfg.crc, StoreAll(cfg.crc, mem, records))
    ensures Load(cfg, StoreAll(cfg.crc, mem, records)) == LastOf(Load(cfg, mem), records)
    ensures HasRecord(cfg.crc, mem) ==> HasRecord(cfg.crc, StoreAll(cfg.crc, mem, records))
    decreases |records|
  {
    hide Load, LogInv, StoreOps, Apply, Storable, HasRecord;
    if records != [] {
      DurableComplete(cfg, mem, records[0]);
      CompletedIsLast(cfg, Apply(mem, StoreOps(cfg.crc, records[0])), records[1..]);
    }
  }

  /** One operation of a run, and the image it leaves; `completed` is false when power failed or a write was refused
      on the way. */
  datatype Turn = Turn(op: Op, completed: bool, after: Image)

  /** A run of the log from `mem`, with no sequence number wrapping around. */
  ghost predicate IsRun(cfg: Config, mem: Image, turns: seq<Turn>)
    decreases |turns|
  {
    turns == [] ||
    (var t, records := turns[0], Records(cfg.crc, turns[0].op, Load(cfg, mem));
     && AllStorable(cfg.crc, Load(cfg, mem), records)
     && (if t.completed then t.after == StoreAll(cfg.crc, mem, records) else CutWhileStoring(cfg.crc, mem, records, t.after))
     && IsRun(cfg, t.after, turns[1..]))
  }

  /** What a performed operation leaves, whole or up to a refused write, and what a power loss leaves of it, is a turn of
      a run. */
  lemma PerformedIsTurn(cfg: Config, mem: Image, op: Op, after: Image, k: nat)
    requires AllStorable(cfg.crc, Load(cfg, mem), Records(cfg.crc, op, Load(cfg, mem)))
    ensures var all := AllOps(cfg.crc, Records(cfg.crc, op, Load(cfg, mem)));
            && IsRun(cfg, mem, [Turn(op, true, Apply(mem, all))])
            && (k <= |all| ==> IsRun(cfg, mem, [Turn(op, false, Apply(mem, all[..k]))]))
            && (CutDuring(cfg.crc, mem, all, after) ==> IsRun(cfg, mem, [Turn(op, false, after)]))
  {
    hide Load, Records, AllOps, Apply, CutDuring, CutWhileStoring, StoreAll, AllStorable;
    var records := Records(cfg.crc, op, Load(cfg, mem));
    var all := AllOps(cfg.crc, records);
    AllOpsStoreAll(cfg.crc, mem, records);
    OneTurn(cfg, mem, Turn(op, true, Apply(mem, all)));
    if k <= |all| {
      PrefixIsCut(cfg.crc, mem, all, k);
      CutIsInSomeRecord(cfg.crc, mem, records, Apply(mem, all[..k]));
      OneTurn(cfg, mem, Turn(op, false, Apply(mem, all[..k])));
    }
    if CutDuring(cfg.crc, mem, all, after) {
      CutIsInSomeRecord(cfg.crc, mem, records, after);
      OneTurn(cfg, mem, Turn(op, false, after));
    }
  }

  lemma OneTurn(cfg: Config, mem: Image, t: Turn)
    requires var records := Records(cfg.crc, t.op, Load(cfg, mem));
             && AllStorable(cfg.crc, Load(cfg, mem), records)
             && (if t.completed then t.after == StoreAll(cfg.crc, mem, records) else CutWhileStoring(cfg.crc, mem, records, t.after))
    ensures IsRun(cfg, mem, [t])
  {
    hide Load, Records, AllStorable, StoreAll, CutWhileStoring;
    assert [t][1..] == [];
    assert IsRun(cfg, t.after, []);
  }

  /** The same run on a plain register: a completed operation takes effect, an interrupted one may have taken
      effect or not (a repair may also have stored just its first record). */
  ghost predicate RegisterRun(cfg: Config, m: Metadata, turns: seq<Turn>, final: Metadata)
    decreases |turns|
  {
    if turns == [] then m == final
    else
      var records := Records(cfg.crc, turns[0].op, m);
      exists next: Metadata ::
        && RegisterStep(m, records, turns[0].completed, next)
        && RegisterRun(cfg, next, turns[1..], final)
  }

  ghost predicate RegisterStep(m: Metadata, records: seq<Metadata>, completed: bool, next: Metadata) {
    if completed then next == LastOf(m, records) else next == m || next in records
  }

  function FinalImage(mem: Image, turns: seq<Turn>): Image {
    if turns == [] then mem else turns[|turns| - 1].after
  }

  /** For every run of operations, each possibly cut by a power loss at any flash step, the log refines the
      register, keeps its invariant, and never falls back to the default once a record is there. */
  lemma {:induction false} LogRefinesRegister(cfg: Config, mem: Image, turns: seq<Turn>)
    requires LogInv(cfg.crc, mem) && IsRun(cfg, mem, turns)
    ensures LogInv(cfg.crc, FinalImage(mem, turns))
    ensures RegisterRun(cfg, Load(cfg, mem), turns, Load(cfg, FinalImage(mem, turns)))
    ensures HasRecord(cfg.crc, mem) ==> HasRecord(cfg.crc, FinalImage(mem, turns))
    decreases |turns|
  {
    hide Load, LogInv, Records, HasRecord, StoreAll, CutWhileStoring;
    if turns != [] {
      var t, records := turns[0], Records(cfg.crc, turns[0].op, Load(cfg, mem));
      if t.completed {
        CompletedIsLast(cfg, mem, records);
      } else {
        CutIsOldOrStored(cfg, mem, records, t.after);
      }
      assert RegisterStep(Load(cfg, mem), records, t.completed, Load(cfg, t.after));
      LogRefinesRegister(cfg, t.after, turns[1..]);
      assert FinalImage(t.after, turns[1..]) == FinalImage(mem, turns);
    }
  }

  // ----- the operations make storable records -----

  /** Every record an operation stores follows the one before it, so only wrap-around or a checksum that looks
      like an unwritten field can keep a run from being storable. */
  lemma OperationsFollow(crc: Crc, op: Op, m: Metadata)
    requires WellShaped(m)
    ensures var r := Mutate(crc, op, m); r.Some? ==> Follows(crc, m, r.value) && WellShaped(r.value)
  {
    if Mutate(crc, op, m).Some? {
      var r := Mutate(crc, op, m).value;
      SealingIsIdempotent(crc, r);
      assert Sealed(crc, r) by {
        var base := r.(core := r.core.(metadataCrc32 := 0), ext := r.ext.(metadataExtCrc32 := 0), ab := r.ab.(metadataAbCrc32 := 0));
        SealingIsIdempotent(crc, base);
        assert UpdateCrc(crc, base) == r;
      }
    }
  }

  /** What an operation leaves alone: the running slot and the digests always; everything else unless it is the
      operation's business. */
  lemma OperationsKeepTheRest(crc: Crc, op: Op, m: Metadata)
    requires Mutate(crc, op, m).Some?
    ensures var r := Mutate(crc, op, m).value;
            && r.core.activeSlot == m.core.activeSlot
            && r.core.slotASha256 == m.core.slotASha256 && r.core.slotBSha256 == m.core.slotBSha256
            && (!op.ConfirmActiveOp? ==> r.core.confirmedSlot == m.core.confirmedSlot)
            && (forall slot :: slot in {SLOT_A, SLOT_B} && !(op.MarkPendingOp? && op.slot == slot) ==>
                  SlotSize(r, slot) == SlotSize(m, slot) && SlotCrc32(r, slot) == SlotCrc32(m, slot))
            && (!op.MarkPendingOp? && !op.ConfirmActiveOp? && !op.SetBootModeOp? ==>
                  r.core.(sequence := 0, metadataCrc32 := 0) == m.core.(sequence := 0, metadataCrc32 := 0))
            && (op.MarkPendingOp? || op.ConfirmActiveOp? || op.RepairCopies? ==>
                  r.ext.(metadataExtCrc32 := 0) == m.ext.(metadataExtCrc32 := 0))
            && (!op.SetBootModeOp? ==> r.ab.(metadataAbCrc32 := 0) == m.ab.(metadataAbCrc32 := 0))
  {
  }

  /** A copy transaction never records more than the image holds, and none is recorded between transactions. */
  ghost predicate TransactionBounded(m: Metadata) {
    && m.ext.copyWritten <= m.ext.copySize
    && (m.ext.copyTxnState == TXN_NONE ==> m.ext.copyWritten == 0)
  }

  lemma OperationsKeepTransactionBounded(crc: Crc, op: Op, m: Metadata)
    requires TransactionBounded(m) && Mutate(crc, op, m).Some?
    ensures TransactionBounded(Mutate(crc, op, m).value)
    ensures op.FinishCopyOp? ==> Mutate(crc, op, m).value.ext.copyWritten == m.ext.copySize
  {
  }

  /** Over a whole run the transaction stays bounded. */
  lemma {:induction false} RunKeepsTransactionBounded(cfg: Config, m: Metadata, turns: seq<Turn>, final: Metadata)
    requires TransactionBounded(m) && RegisterRun(cfg, m, turns, final)
    ensures TransactionBounded(final)
    decreases |turns|
  {
    hide Mutate, TransactionBounded;
    if turns != [] {
      var records := Records(cfg.crc, turns[0].op, m);
      var next :| RegisterStep(m, records, turns[0].completed, next) && RegisterRun(cfg, next, turns[1..], final);
      RecordsStayBounded(cfg.crc, turns[0].op, m);
      RunKeepsTransactionBounded(cfg, next, turns[1..], final);
    }
  }

  lemma RecordsStayBounded(crc: Crc, op: Op, m: Metadata)
    requires TransactionBounded(m)
    ensures forall r :: r in Records(crc, op, m) ==> TransactionBounded(r)
    ensures Records(crc, op, m) != [] ==> LastOf(m, Records(crc, op, m)) in Records(crc, op, m)
  {
    hide Mutate;
    if Mutate(crc, op, m).Some? {
      OperationsKeepTransactionBounded(crc, op, m);
      hide TransactionBounded;
      CommittedStaysBounded(crc, Mutate(crc, op, m).value);
    }
  }

  lemma CommittedStaysBounded(crc: Crc, m: Metadata)
    requires TransactionBounded(m)
    ensures TransactionBounded(Committed(crc, m))
  {
  }

  // ----- repair -----

  /** Equal but for the sequence number and the checksum over it. */
  ghost predicate SameButSequence(a: Metadata, b: Metadata) {
    && a.core.(sequence := 0, metadataCrc32 := 0) == b.core.(sequence := 0, metadataCrc32 := 0)
    && a.ext == b.ext && a.ab == b.ab
  }

  lemma CommittedKeepsContent(crc: Crc, m: Metadata)
    requires Sealed(crc, m)
    ensures SameButSequence(m, Committed(crc, m)) && Sealed(crc, Committed(crc, m))
  {
    SealingIsIdempotent(crc, m.(core := m.core.(sequence := Inc(m.core.sequence))));
  }

  /** Both copies hold `m` but for the sequence number. */
  ghost predicate BothHold(crc: Crc, mem: Image, m: Metadata) {
    && Live(crc, mem, 0).Some? && SameButSequence(m, Live(crc, mem, 0).value)
    && Live(crc, mem, 1).Some? && SameButSequence(m, Live(crc, mem, 1).value)
  }

  lemma TwoStoresFillBoth(cfg: Config, mem: Image, m: Metadata, r1: Metadata, r2: Metadata)
    requires Accepted(cfg.crc, r1) && Accepted(cfg.crc, r2) && CopyIndex(r1) != CopyIndex(r2)
    requires SameButSequence(m, r1) && SameButSequence(m, r2)
    ensures BothHold(cfg.crc, Apply(Apply(mem, StoreOps(cfg.crc, r1)), StoreOps(cfg.crc, r2)), m)
  {
    hide Live, StoreOps, Apply, Sealed, WellShaped, Distinct;
    StoreComplete(cfg.crc, mem, r1);
    StoreComplete(cfg.crc, Apply(mem, StoreOps(cfg.crc, r1)), r2);
  }

  /** A completed repair leaves its record in both copies. */
  lemma RepairFillsBoth(cfg: Config, mem: Image)
    requires LogInv(cfg.crc, mem)
    requires AllStorable(cfg.crc, Load(cfg, mem), Records(cfg.crc, RepairCopies, Load(cfg, mem)))
    ensures var repaired := StoreAll(cfg.crc, mem, Records(cfg.crc, RepairCopies, Load(cfg, mem)));
            LogInv(cfg.crc, repaired) && BothHold(cfg.crc, repaired, Load(cfg, mem))
  {
    hide Live, Load, StoreOps, Apply, Accepted, Committed, LogInv, BothHold, WellShaped;
    var m := Load(cfg, mem);
    LoadIsShaped(cfg, mem);
    var r1 := Committed(cfg.crc, m);
    CommittedKeepsContent(cfg.crc, m);
    var r2 := Committed(cfg.crc, r1);
    CommittedKeepsContent(cfg.crc, r1);
    assert Records(cfg.crc, RepairCopies, m) == [r1, r2];
    CompletedIsLast(cfg, mem, [r1, r2]);
    assert [r1, r2][1..] == [r2] && [r2][1..] == [];
    var mem1 := Apply(mem, StoreOps(cfg.crc, r1));
    assert AllStorable(cfg.crc, r1, [r2]);
    assert StoreAll(cfg.crc, mem1, [r2]) == StoreAll(cfg.crc, Apply(mem1, StoreOps(cfg.crc, r2)), []);
    TwoStoresFillBoth(cfg, mem, m, r1, r2);
  }

  /** After a completed repair, erasing either copy loses nothing but the sequence number. */
  lemma RepairedLogSurvivesErasure(cfg: Config, mem: Image, index: nat)
    requires LogInv(cfg.crc, mem) && index < 2
    requires AllStorable(cfg.crc, Load(cfg, mem), Records(cfg.crc, RepairCopies, Load(cfg, mem)))
    ensures var repaired := StoreAll(cfg.crc, mem, Records(cfg.crc, RepairCopies, Load(cfg, mem)));
            SameButSequence(Load(cfg, mem), Load(cfg, ApplyOp(repaired, EraseCopy(index))))
  {
    var repaired := StoreAll(cfg.crc, mem, Records(cfg.crc, RepairCopies, Load(cfg, mem)));
    RepairFillsBoth(cfg, mem);
    EraseOneOfTwo(cfg, repaired, Load(cfg, mem), index);
  }

  lemma EraseOneOfTwo(cfg: Config, mem: Image, m: Metadata, index: nat)
    requires LogInv(cfg.crc, mem) && BothHold(cfg.crc, mem, m) && index < 2
    ensures SameButSequence(m, Load(cfg, ApplyOp(mem, EraseCopy(index))))
  {
    hide Live, Load, ApplyOp;
    var after := ApplyOp(mem, EraseCopy(index));
    CopyOpTouchesCopy(cfg.crc, mem, EraseCopy(index), after, index);
    ErasedCopyIsInvalid(cfg.crc, mem, index);
    LoadUnderInv(cfg, after);
  }

  // ----- where the log is not safe -----

  /** The record a load goes by, lying in the copy its sequence number belongs to; the other copy holds an older one
      or none. */
  ghost predicate InItsCopy(crc: Crc, mem: Image, source: Metadata) {
    && Newest(crc, mem) == Some(source) && Live(crc, mem, CopyIndex(source)) == Some(source)
    && var other := Live(crc, mem, 1 - CopyIndex(source));
       if other.Some? then other.value.core.sequence < source.core.sequence else source.core.sequence > 0
  }

  /** The first write of an operation erases the very copy its record was read from exactly when that record had to be
      upgraded: the upgrade takes a sequence step of its own. */
  lemma FirstWriteErasesItsSource(cfg: Config, mem: Image, op: Op, source: Metadata)
    requires Newest(cfg.crc, mem) == Some(source) && source.core.sequence < WORD_LIMIT - 2
    requires Mutate(cfg.crc, op, Load(cfg, mem)).Some?
    ensures var r := Mutate(cfg.crc, op, Load(cfg, mem)).value;
            && Load(cfg, mem) == UpgradeIfNeeded(cfg.crc, source)
            && r.core.sequence == Load(cfg, mem).core.sequence + 1
            && Load(cfg, mem).core.sequence == source.core.sequence + (if NeedsUpgrade(source) then 1 else 0)
            && CopyIndex(r) == (if NeedsUpgrade(source) then CopyIndex(source) else 1 - CopyIndex(source))
            && StoreOps(cfg.crc, r)[0] == EraseCopy(CopyIndex(r))
  {
    hide Live, Load, ApplyOp, UpgradeIfNeeded, Mutate, Newest;
    LoadIsNewest(cfg, mem);
    UpgradeTakesAStep(cfg.crc, source);
    OperationTakesAStep(cfg.crc, op, Load(cfg, mem));
  }

  /** After that write the source is gone: the next load falls back to the other copy, or to the default. */
  lemma UpgradeEndangersItsSource(cfg: Config, mem: Image, op: Op, source: Metadata)
    requires InItsCopy(cfg.crc, mem, source) && source.core.sequence < WORD_LIMIT - 2
    requires Mutate(cfg.crc, op, Load(cfg, mem)).Some? && NeedsUpgrade(source)
    ensures var erased := ApplyOp(mem, StoreOps(cfg.crc, Mutate(cfg.crc, op, Load(cfg, mem)).value)[0]);
            var other := Live(cfg.crc, mem, 1 - CopyIndex(source));
            && Load(cfg, erased) == (if other.Some? then UpgradeIfNeeded(cfg.crc, other.value) else Default(cfg))
            && Load(cfg, erased).core.sequence < Load(cfg, mem).core.sequence
  {
    hide Live, Load, ApplyOp, UpgradeIfNeeded, Mutate, StoreOps, Default;
    var index := CopyIndex(source);
    var erased := ApplyOp(mem, EraseCopy(index));
    FirstWriteErasesItsSource(cfg, mem, op, source);
    ErasedCopyIsInvalid(cfg.crc, mem, index);
    CopyOpTouchesCopy(cfg.crc, mem, EraseCopy(index), erased, index);
    LoadIsNewest(cfg, erased);
    DefaultIsShaped(cfg);
    if Live(cfg.crc, mem, 1 - index).Some? {
      UpgradeTakesAStep(cfg.crc, Live(cfg.crc, mem, 1 - index).value);
    }
  }

  /** So whenever the power fails while the operation stores its record, the next load returns the old record or the
      new one, if and only if the record that was read needed no upgrade. */
  lemma DurableIffNoUpgrade(cfg: Config, mem: Image, op: Op, source: Metadata)
    requires InItsCopy(cfg.crc, mem, source) && source.core.sequence < WORD_LIMIT - 2
    requires Mutate(cfg.crc, op, Load(cfg, mem)).Some? && Accepted(cfg.crc, Mutate(cfg.crc, op, Load(cfg, mem)).value)
    ensures var r := Mutate(cfg.crc, op, Load(cfg, mem)).value;
            (forall after :: CutDuring(cfg.crc, mem, StoreOps(cfg.crc, r), after) ==> Load(cfg, after) in {Load(cfg, mem), r})
            <==> !NeedsUpgrade(source)
  {
    hide Live, Load, ApplyOp, UpgradeIfNeeded, Mutate, StoreOps, Accepted, CutDuring, InItsCopy;
    var r := Mutate(cfg.crc, op, Load(cfg, mem)).value;
    FirstWriteIs(cfg, mem, op, source);
    if NeedsUpgrade(source) {
      UpgradeEndangersItsSource(cfg, mem, op, source);
      var erased := ApplyOp(mem, StoreOps(cfg.crc, r)[0]);
      CutAfterFirst(cfg.crc, mem, r);
      assert Load(cfg, erased) !in {Load(cfg, mem), r};
    } else {
      forall after | CutDuring(cfg.crc, mem, StoreOps(cfg.crc, r), after) ensures Load(cfg, after) in {Load(cfg, mem), r} {
        CutBesideItsSource(cfg, mem, r, source, after);
      }
    }
  }

  lemma FirstWriteIs(cfg: Config, mem: Image, op: Op, source: Metadata)
    requires InItsCopy(cfg.crc, mem, source) && source.core.sequence < WORD_LIMIT - 2
    requires Mutate(cfg.crc, op, Load(cfg, mem)).Some?
    ensures var r := Mutate(cfg.crc, op, Load(cfg, mem)).value;
            && r.core.sequence == Load(cfg, mem).core.sequence + 1
            && (!NeedsUpgrade(source) ==> Load(cfg, mem) == source && r.core.sequence == source.core.sequence + 1)
  {
    hide Live, Load, Mutate, Newest, StoreOps;
    FirstWriteErasesItsSource(cfg, mem, op, source);
  }

  lemma CutAfterFirst(crc: Crc, mem: Image, m: Metadata)
    ensures CutDuring(crc, mem, StoreOps(crc, m), ApplyOp(mem, StoreOps(crc, m)[0]))
  {
    hide ApplyOp, CutDuring, Page;
    var ops := StoreOps(crc, m);
    CutOfTwo(crc, mem, ops[0], ops[1], ApplyOp(mem, ops[0]));
    assert ops == [ops[0], ops[1]];
  }

  lemma CutBesideItsSource(cfg: Config, mem: Image, r: Metadata, source: Metadata, after: Image)
    requires InItsCopy(cfg.crc, mem, source) && !NeedsUpgrade(source) && r.core.sequence == source.core.sequence + 1
    requires Accepted(cfg.crc, r) && CutDuring(cfg.crc, mem, StoreOps(cfg.crc, r), after)
    ensures Load(cfg, after) in {source, r}
  {
    hide Live, Load, ApplyOp, StoreOps, CutDuring, Default, Sealed, WellShaped, Distinct, IsValid, NeedsUpgrade;
    StoreCut(cfg.crc, mem, r, after);
    SealedIsAcceptedIff(cfg.crc, r);
    LoadIsNewest(cfg, after);
    NoUpgradeNoChange(cfg.crc, source);
    NoUpgradeNoChange(cfg.crc, r);
    hide UpgradeIfNeeded;
  }

  lemma NoUpgradeNoChange(crc: Crc, m: Metadata)
    requires !NeedsUpgrade(m)
    ensures UpgradeIfNeeded(crc, m) == m
  {
  }

  lemma UpgradeTakesAStep(crc: Crc, m: Metadata)
    ensures UpgradeIfNeeded(crc, m).core.sequence == if NeedsUpgrade(m) then Inc(m.core.sequence) else m.core.sequence
  {
  }

  lemma OperationTakesAStep(crc: Crc, op: Op, m: Metadata)
    requires Mutate(crc, op, m).Some?
    ensures Mutate(crc, op, m).value.core.sequence == Inc(m.core.sequence)
  {
  }

  /** A completed store is what the next load returns exactly when the sequence number did not wrap around. */
  lemma StoreIsSeenIffNoWrap(cfg: Config, mem: Image, next: Metadata)
    requires LogInv(cfg.crc, mem) && HasRecord(cfg.crc, mem)
    requires next.core.sequence == Inc(Load(cfg, mem).core.sequence) && Accepted(cfg.crc, next)
    ensures Load(cfg, Apply(mem, StoreOps(cfg.crc, next))) == next <==> Load(cfg, mem).core.sequence != WORD_LIMIT - 1
  {
    hide Live, Load, StoreOps, Apply, Default, Sealed, WellShaped, Distinct, NeedsUpgrade, IsValid, OnlyCopyChanged;
    var after := Apply(mem, StoreOps(cfg.crc, next));
    StoreComplete(cfg.crc, mem, next);
    OtherCopyKept(cfg.crc, mem, after, CopyIndex(next));
    SealedIsAcceptedIff(cfg.crc, next);
    LoadUnderInv(cfg, mem);
    PairWrap(cfg, Live(cfg.crc, mem, 0), Live(cfg.crc, mem, 1), Live(cfg.crc, after, 0), Live(cfg.crc, after, 1), next);
    LoadUnderInv(cfg, after);
  }

  lemma OtherCopyKept(crc: Crc, mem: Image, after: Image, index: nat)
    requires index < 2 && OnlyCopyChanged(crc, mem, after, index)
    ensures Live(crc, after, 1 - index) == Live(crc, mem, 1 - index)
  {
    hide Live;
  }

  lemma PairWrap(cfg: Config, a: Option<Metadata>, b: Option<Metadata>, a': Option<Metadata>, b': Option<Metadata>, next: Metadata)
    requires GoodCopy(a, 0) && GoodCopy(b, 1) && (a.Some? || b.Some?)
    requires next.core.sequence == Inc(Pick(cfg, a, b).core.sequence) && !NeedsUpgrade(next)
    requires CopyIndex(next) == 0 ==> b' == b && a' == Some(next)
    requires CopyIndex(next) == 1 ==> a' == a && b' == Some(next)
    ensures GoodCopy(a', 0) && GoodCopy(b', 1)
    ensures Pick(cfg, a', b') == next <==> Pick(cfg, a, b).core.sequence != WORD_LIMIT - 1
  {
    hide Default, NeedsUpgrade;
  }
}
