/** Which records are accepted, what older ones are turned into, and the laws between the operations. */
module MetadataLaws {
  import opened Outcomes
  import opened Bytes
  import opened Flash
  import opened Metadata
  import opened MetadataLog
  import opened MetadataRegister
  import opened BootPlan

  // ----- acceptance -----

  /** Whatever record is read: it is accepted as it stands exactly when all three of its checksums are right and do not look like
      unwritten fields, and every field that a reader checks is in range. */
  lemma AcceptedIff(crc: Crc, m: Metadata)
    ensures IsValid(crc, m) && !NeedsUpgrade(m) <==> Sealed(crc, m) && WellShaped(m) && Distinct(crc, m)
  {
    if IsValid(crc, m) && !NeedsUpgrade(m) {
      ValidIsShaped(crc, m);
    }
    if Sealed(crc, m) { SealedIsAcceptedIff(crc, m); }
  }

  /** A record of either layout is never valid with a wrong checksum over its core. */
  lemma ChangedCoreIsRejected(crc: Crc, m: Metadata, c: Core)
    requires (IsValid(crc, m) || V2IsValid(crc, m.core)) && c.metadataCrc32 == m.core.metadataCrc32
    ensures CoreCrc(crc, c) != CoreCrc(crc, m.core) ==> !IsValid(crc, m.(core := c)) && !V2IsValid(crc, c)
  {
  }

  /** Nor with a wrong checksum over the copy transaction, once one has been written, nor over the boot mode part. */
  lemma ChangedPartsAreRejected(crc: Crc, m: Metadata, e: Extension, a: AbPart)
    requires IsValid(crc, m) && !NeedsUpgrade(m)
    ensures e.metadataExtCrc32 == m.ext.metadataExtCrc32 && ExtCrc(crc, e) != ExtCrc(crc, m.ext) ==> !IsValid(crc, m.(ext := e))
    ensures a.metadataAbCrc32 == m.ab.metadataAbCrc32 && AbCrc(crc, a) != AbCrc(crc, m.ab) ==> !IsValid(crc, m.(ab := a))
  {
  }

  // ----- older records -----

  /** Before the boot mode part was introduced there was only copy mode. */
  ghost predicate CopyModeOnly(a: AbPart) {
    a.bootMode == MODE_COPY_TO_ACTIVE && a.previousSlot == SLOT_NONE && a.bootGeneration == 0 && a.bootCapabilities == CAP_COPY_TO_ACTIVE
  }

  ghost predicate NoTransaction(e: Extension) {
    && e.copyTxnState == TXN_NONE && e.copySourceSlot == SLOT_NONE && e.copyDestinationSlot == SLOT_NONE && e.copySize == 0
    && e.copyCrc32 == 0 && e.copyWritten == 0 && e.copyAttempts == 0 && e.copyLastError == 0
  }

  /** The same last boot, except that a source slot there is not is forgotten. */
  ghost predicate SameLastBoot(a: Core, b: Core) {
    && a.lastBootResult == b.lastBootResult && a.lastBootSize == b.lastBootSize && a.lastBootCrc32 == b.lastBootCrc32
    && b.lastBootSourceSlot == if a.lastBootSourceSlot in {SLOT_NONE, SLOT_A, SLOT_B} then a.lastBootSourceSlot else SLOT_NONE
  }

  /** An upgraded record is in copy mode, goes on with a copy transaction that was written before, and has none where none was. */
  lemma UpgradeKeepsTransaction(crc: Crc, m: Metadata)
    requires NeedsUpgrade(m)
    ensures var u := UpgradeIfNeeded(crc, m);
            && u.core.sequence == Inc(m.core.sequence) && SameLastBoot(m.core, u.core) && CopyModeOnly(u.ab)
            && (if Blank(m.ext.metadataExtCrc32) then NoTransaction(u.ext) && u.ext.faultInjectionFlags == 0
                else u.ext.(metadataExtCrc32 := 0) == m.ext.(metadataExtCrc32 := 0))
  {
  }

  /** A version 2 record keeps its core as it is and gets an empty transaction and copy mode. */
  lemma ConversionAddsNothing(crc: Crc, c: Core)
    ensures var m := FromV2(crc, c);
            && m.core.(version := 0, metadataCrc32 := 0) == c.(version := 0, metadataCrc32 := 0) && m.core.version == METADATA_VERSION
            && NoTransaction(m.ext) && m.ext.faultInjectionFlags == 0 && CopyModeOnly(m.ab)
  {
  }

  /** A converted record is always valid, and so a version 2 record that stands alone is what the next load goes by: its slots, what is
      pending and its attempts are kept. */
  lemma VersionTwoIsKept(cfg: Config, mem: Image, index: nat)
    requires index < 2 && V2IsValid(cfg.crc, Decode(RecordBytes(mem, index)).core) && Live(cfg.crc, mem, 1 - index) == None
    ensures Live(cfg.crc, mem, index) == Some(FromV2(cfg.crc, Decode(RecordBytes(mem, index)).core))
    ensures SameSlots(Decode(RecordBytes(mem, index)).core, Load(cfg, mem).core)
  {
    var c := Decode(RecordBytes(mem, index)).core;
    ConvertedIsValid(cfg.crc, c);
    ConversionKeepsSlots(cfg.crc, c);
    LoadIsNewest(cfg, mem);
    hide Load, FromV2, SameSlots, UpgradeIfNeeded, Default, Decode;
    var m := FromV2(cfg.crc, c);
    assert Candidate(cfg.crc, mem, index) == m;
    UpgradeIsFinalIffDistinct(cfg.crc, m);
    SlotsTwice(c, m.core, UpgradeIfNeeded(cfg.crc, m).core);
  }

  lemma ConvertedIsValid(crc: Crc, c: Core)
    requires V2IsValid(crc, c)
    ensures IsValid(crc, FromV2(crc, c)) && forall m: Metadata :: m.core == c ==> !IsValid(crc, m)
  {
    var m := FromV2(crc, c);
    SealingIsIdempotent(crc, Metadata(c.(version := METADATA_VERSION), Extension(0, 0, 0, 0, 0, 0, 0, 0, 0, 0), AB_DEFAULTS));
    assert BlankBytes(0) && BlankBytes(0xFFFF_FFFF);
  }

  lemma SlotsTwice(a: Core, b: Core, c: Core)
    requires SameSlots(a, b) && SameSlots(b, c)
    ensures SameSlots(a, c)
  {
  }

  /** A device without a record runs slot A, with nothing pending and nothing known of the slots, in the mode it was built for. */
  lemma DefaultRunsSlotA(cfg: Config)
    ensures var m := Default(cfg);
            && m.core.activeSlot == SLOT_A && m.core.confirmedSlot == SLOT_A && m.core.pendingSlot == SLOT_NONE
            && m.core.bootAttempts == 0 && m.core.rollbackCount == 0 && m.core.lastBootResult == RESULT_NONE
            && m.core.slotASize == 0 && m.core.slotBSize == 0 && NoTransaction(m.ext) && m.ext.faultInjectionFlags == 0
            && (m.ab.bootMode == MODE_DIRECT_AB <==> cfg.defaultDirectAb) && m.ab.previousSlot == SLOT_NONE
  {
  }

  // ----- laws between operations -----

  /** Equal in everything but the sequence number and the checksums. */
  ghost predicate Same(a: Metadata, b: Metadata) {
    && a.core.(sequence := 0, metadataCrc32 := 0) == b.core.(sequence := 0, metadataCrc32 := 0)
    && a.ext.(metadataExtCrc32 := 0) == b.ext.(metadataExtCrc32 := 0) && a.ab.(metadataAbCrc32 := 0) == b.ab.(metadataAbCrc32 := 0)
  }

  /** A transaction begun is of the pending image exactly when it was begun for it, from slot B to slot A, and nothing is written yet;
      one that was begun can be cleared without a trace. */
  lemma BeginningACopy(crc: Crc, m: Metadata, source: u32, destination: u32, size: u32, imageCrc: u32)
    ensures var begun := BeginCopy(crc, m, source, destination, size, imageCrc);
            && (begun.Some? <==> source != SLOT_NONE && destination != SLOT_NONE && source != destination && size != 0)
            && (begun.Some? ==>
                  && (CopyTransactionMatches(begun.value) <==>
                        source == SLOT_B && destination == SLOT_A && size == m.core.slotBSize && imageCrc == m.core.slotBCrc32)
                  && begun.value.ext.copyTxnState == TXN_STARTED && begun.value.ext.copyWritten == 0 && begun.value.ext.copyLastError == 0
                  && begun.value.ext.copyAttempts == Inc(m.ext.copyAttempts)
                  && Same(ClearCopyTransaction(crc, begun.value).value, ClearCopyTransaction(crc, m).value))
  {
  }

  /** Clearing the transaction leaves none, and clearing where there is none changes nothing. */
  lemma ClearingACopy(crc: Crc, m: Metadata)
    ensures ClearCopyTransaction(crc, m).Some? && NoTransaction(ClearCopyTransaction(crc, m).value.ext)
    ensures NoTransaction(m.ext) <==> Same(ClearCopyTransaction(crc, m).value, m)
  {
  }

  /** Finishing a transaction is recording it as done with the whole image written; failing it is recording the failure with as much
      written as there was. Neither, nor any update, does anything without a transaction. */
  lemma FinishingAndFailing(crc: Crc, m: Metadata, lastError: u32)
    ensures FinishCopy(crc, m) == UpdateCopy(crc, m, TXN_DONE, m.ext.copySize, 0)
    ensures m.ext.copyWritten <= m.ext.copySize ==> FailCopy(crc, m, lastError) == UpdateCopy(crc, m, TXN_FAILED, m.ext.copyWritten, lastError)
    ensures m.ext.copyTxnState == TXN_NONE ==> FinishCopy(crc, m) == None && FailCopy(crc, m, lastError) == None
  {
  }

  /** Of several updates in a row only the last one counts. */
  lemma LastUpdateCounts(crc: Crc, m: Metadata, s1: u32, w1: u32, e1: u32, s2: u32, w2: u32, e2: u32)
    requires UpdateCopy(crc, m, s1, w1, e1).Some?
    ensures var first := UpdateCopy(crc, m, s1, w1, e1).value;
            && (UpdateCopy(crc, first, s2, w2, e2).Some? <==> UpdateCopy(crc, m, s2, w2, e2).Some?)
            && (UpdateCopy(crc, m, s2, w2, e2).Some? ==> Same(UpdateCopy(crc, first, s2, w2, e2).value, UpdateCopy(crc, m, s2, w2, e2).value))
            && first.ext.copyTxnState == s1 && first.ext.copyWritten == w1 && first.ext.copyLastError == e1
  {
  }

  /** Marking an image pending is refused only without a size or a slot; it starts the image afresh, whatever was tried before, and
      marking another image in the same slot replaces it. */
  lemma MarkingPending(crc: Crc, m: Metadata, slot: u32, size: u32, imageCrc: u32, size2: u32, imageCrc2: u32)
    ensures var marked := MarkPending(crc, m, slot, size, imageCrc);
            && (marked.Some? <==> size != 0 && slot in {SLOT_A, SLOT_B})
            && (marked.Some? ==>
                  && marked.value.core.pendingSlot == slot && marked.value.core.bootAttempts == 0
                  && SlotSize(marked.value, slot) == size && SlotCrc32(marked.value, slot) == imageCrc
                  && marked.value.core.lastBootResult == RESULT_NONE && marked.value.core.lastBootSourceSlot == slot
                  && marked.value.core.lastBootSize == size && marked.value.core.lastBootCrc32 == imageCrc
                  && !CanConfirmActive(marked.value)
                  && (size2 != 0 ==> Same(MarkPending(crc, marked.value, slot, size2, imageCrc2).value,
                                          MarkPending(crc, m, slot, size2, imageCrc2).value)))
  {
  }

  /** The active slot can be confirmed exactly when it was applied and nothing else is pending; then it is the confirmed one, is told of
      as the last that was booted, and can be confirmed again without changing anything. */
  lemma Confirming(crc: Crc, m: Metadata)
    ensures var confirmed := ConfirmActive(crc, m);
            && (confirmed.Some? <==>
                  m.core.activeSlot in {SLOT_A, SLOT_B} && m.core.pendingSlot == SLOT_NONE && m.core.lastBootResult == RESULT_APPLIED)
            && (confirmed.Some? ==>
                  && confirmed.value.core.confirmedSlot == confirmed.value.core.activeSlot == m.core.activeSlot
                  && confirmed.value.core.bootAttempts == 0 && confirmed.value.core.lastBootResult == RESULT_APPLIED
                  && confirmed.value.core.lastBootSourceSlot == m.core.activeSlot
                  && confirmed.value.core.lastBootSize == SlotSize(m, m.core.activeSlot)
                  && confirmed.value.core.lastBootCrc32 == SlotCrc32(m, m.core.activeSlot)
                  && ConfirmActive(crc, confirmed.value).Some? && Same(ConfirmActive(crc, confirmed.value).value, confirmed.value))
  {
  }

  /** Switching the boot mode withdraws whatever was pending or under way; switching there and back is switching back. */
  lemma SwitchingMode(crc: Crc, m: Metadata, mode: u32, other: u32)
    ensures var switched := SetBootMode(crc, m, mode);
            && (switched.Some? <==> mode in {MODE_COPY_TO_ACTIVE, MODE_DIRECT_AB})
            && (switched.Some? ==>
                  && switched.value.ab.bootMode == mode && switched.value.core.pendingSlot == SLOT_NONE
                  && switched.value.core.bootAttempts == 0 && NoTransaction(switched.value.ext)
                  && switched.value.ab.previousSlot == SLOT_NONE && switched.value.ab.bootGeneration == 0
                  && (switched.value.ab.bootCapabilities == CAP_BOTH <==> mode == MODE_DIRECT_AB)
                  && (BootModeValid(other) ==>
                        Same(SetBootMode(crc, SetBootMode(crc, m, other).value, mode).value, switched.value)))
  {
  }

  /** So a boot after switching to copy mode installs nothing: it writes nothing, and ends where slot A takes it. */
  lemma NothingToInstallAfterSwitch(cfg: Config, mem: Image, m: Metadata)
    requires SetBootMode(cfg.crc, m, MODE_COPY_TO_ACTIVE) == Some(Load(cfg, mem))
    ensures BootOf(cfg, mem) == Boot([], Load(cfg, mem), Fallback(cfg.crc, mem, Load(cfg, mem)))
  {
    SwitchingMode(cfg.crc, m, MODE_COPY_TO_ACTIVE, MODE_COPY_TO_ACTIVE);
    hide Load, SetBootMode, Fallback, RunWrites;
    RunOne(cfg.crc, mem, Put(m));
  }
}
