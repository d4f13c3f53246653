# Verified model of RP2350_TRIG

A Dafny project that models five parts of the RP2350_TRIG firmware and its tools, and proves properties of them over every
input, every run and every point at which power can fail.

1. **Crash-safe OTA state.** `Flash`, `Metadata`, `Partition`, `MetadataLog`, `MetadataRegister`, `BootPlan`, `SlotCopy`,
   `Bootloader`, `PowerLoss`, `CopyRuns`, `CopyConverges`, `CopyRecords`, `CopyTrail`, `BootSafety`, `MixedRuns`,
   `DirectRuns`, `DirectOffers`, `MixedTrials`, `MetadataLaws`. The flash device is one byte array that erases to 0xFF and
   programs by AND. On it stand two metadata copies written by sequence parity, the boot engine, the copy-to-active
   transaction and the direct A/B scheme. Each imperative method is proved to perform exactly a *plan* (the list of records
   and raw writes it makes), and the plans are then followed over any number of boots and power losses.
2. **BiSS frames and waveforms.** `Bits`, `BissCrc`, `BissRemainder`, `BissFrame`, `BissWave`, `BissShape`, `BissValidate`,
   `BissVerdict`, `BissEndToEnd`. Python's unbounded integers with two's complement bit operators, the CRC register, frame
   building, the clocked waveform, its edge-sampling decoder and the crossing counter.
3. **Storage jobs and resource arbiter.** `Arbiter`, `Jobs`, `Card`, `Moments`, `Storage`, `Path`, `PathMeaning`. Whether a
   call of the card succeeds is arbitrary. Other tasks may use the arbiter, and call the storage manager themselves, before
   every acquire and release and before the result of an operation is tested. The arbiter keeps a record of its calls, the
   manager one of the writes of its error, and the contracts are about what lies between two *moments* of both.
4. **Event bus.** `EventBus`: the eight-slot ring whose deliveries point into its own buffers.
5. **File formats.** `Trace` and `TraceChecks` (ring, file, decoder, time unwrapping), `Package` and `PackageChecks`
   (packager and reader).

`Outcomes` and `Bytes` are shared: results that may raise, little-endian words, spliced byte images. `dafny verify
dfyconfig.toml` checks everything.

## Assumptions

- **A torn record is invalid** (`MetadataLog.Torn`, the only place). A flash operation cut by a power loss leaves arbitrary
  bytes in the cells it worked on and nothing elsewhere; a metadata copy among them is then not valid, or holds the record
  from before or after the operation. Slot contents get no such help.
- **Checksums are functions of the bytes.** CRC-32 and SHA-256 are arbitrary functions given as parameters; nothing else is
  assumed of them. Only the small BiSS register is modelled bit by bit.
- **The flash driver works**: an operation that returns has had its effect. During boot core 1 is not running, so no write
  is refused; elsewhere a refused write is modelled. The bootloader ignores the result of storing the attempt count, which
  matters only if that store could fail.
- **Side conditions of runs** are stated in the lemmas: `Storable` and `Recordable` ask that the sequence number does not
  wrap around and that no extension checksum reads 0 or 0xFFFFFFFF, the two values that mark an unwritten field.
- A data block posted to the event bus may point into the bus's own buffers, as a received event does. The model reads its
  bytes before it writes any; the C standard leaves `memcpy` undefined where the two stretches overlap in part.
- **The storage manager has been initialised** (`Storage.Manager.AtRest`). Before that its probe returns false without
  touching the error (`components/storage_manager/src/storage_manager.c:810-812`) and the next job id is 0.
- **Competing calls.** In the build with FreeRTOS the SCPI task may preempt the storage task at any point, and its calls
  write the storage error outside every critical section: a post that finds the slot taken leaves RESOURCE_BUSY, a probe of
  a ready card clears it, and any other command leaves what it finds. The model lets such a write, of any value, together
  with what the vector knows of the card, land before every acquire and release and before each test of a result. In the
  build without tasks none lands inside a service call.
- A rename on the card never replaces a file, as FatFs has it. Nothing but the storage manager writes to the card.
- A 32-bit resource mask is modelled as the set of its one bits.

## What the proofs turned up

- Where the CRC cover is empty, the generator stores 0 and the validator expects the checksum of an empty message
  (`BissFrame.BuiltFramePassesCrc`).
- A record in an older layout is upgraded on load with a sequence step of its own, so that the operation which loaded it
  erases the copy it came from before the new one is written. A power loss then loses the record, to the default if no older
  one is left (`MetadataRegister.UpgradeEndangersItsSource`, `MetadataRegister.DurableIffNoUpgrade`).
- A store after the sequence number has reached 0xFFFFFFFF is not seen by the next load
  (`MetadataRegister.StoreIsSeenIffNoWrap`).
- An extension checksum that happens to be 0 or 0xFFFFFFFF makes a good record read as an unwritten one
  (`Metadata.SealedIsAcceptedIff`).
- A CRC with an even polynomial misses a burst no longer than itself (`BissCrc.BurstsDetectedIffOdd`).
- With tasks, a competing call between an operation's last write of the storage error and its test can have the result
  misread. A post has a failure read as a refusal: the operation is made again, so that an evidence job may carry out a step
  twice, and a missing manifest is looked for again instead of being made. A probe of a ready card has a refusal read as a
  failure: the job goes on, so that an evidence job may end with no snapshot made at all (`Jobs.EvidenceExactlyOnceIff`,
  `Jobs.SnapshotIsMadeTwice`, `Jobs.SnapshotIsLost`, `Jobs.MissingManifestIsMisread`).
- With tasks, a post that lands after a job's final phase is written and before its outcome is published takes the slot, and
  the outcome is then written over it: the new job is served for the path of the old one
  (`Storage.Manager.FinishAroundPost`).
- After a failed initialisation a scan or initialisation job waits as long as a RESOURCE_BUSY that a competing post has left
  behind is not cleared (`Jobs.SkippedStepWaitsIffBusy`, `Jobs.StaleBusyBlocks`, `Jobs.StaleBusyIsReachable`).
- An offer of a slot there is not is never recorded as refused, and so stays pending (`DirectOffers.UnknownOfferIsIgnored`,
  `BootSafety.OnlySlotBIsInstalled`).
- A confirmed slot that cannot be booted is not given up, even if the other slot could be booted
  (`DirectOffers.ConfirmedSlotUnbootable`).
- The path normaliser is not idempotent on results that end in a space (`Path.NormalizingAgain`), and lets a final `/.`
  through. Jobs normalise their path when posted and again when served, so such a job looks up another path than the one it
  was queued under.
- The packager builds packages of 2^32 bytes and more that the reader refuses, and accepts texts with NULs that come back
  cut (`Package.PackageRoundTripIff`, `Package.TextRoundTripIff`).

## Model

| member | source | states |
|---|---|---|
| `Flash.Device.Erase` | drivers/mcu/flash/src/drv_flash.c:147-168 | an erase that is in range, sector aligned and granted sets its span to 0xFF and nothing else; a refused one changes nothing |
| `Flash.Device.Program` | drivers/mcu/flash/src/drv_flash.c:170-191 | a program ANDs its bytes into the page and succeeds exactly when the readback equals the data; an illegal or refused one changes nothing |
| `Flash.ProgramErased` | drivers/mcu/flash/src/drv_flash.c:170-191 | programming erased cells stores the data itself |
| `Partition.RegionsAreDisjoint` | components/ota_manager/inc/ota_partition.h:8-43 | slots, metadata and device end do not overlap |
| `Metadata.RecordRoundTrip` | third_party/portable_ota/include/pota_metadata.h:38-73 | a record is recovered from its bytes, for every value of every field |
| `Metadata.SealingIsIdempotent` | third_party/portable_ota/src/pota_metadata.c:70-79 | renewing the checksums of a record that has just had them renewed changes nothing, so a stored record reads back as stored |
| `Metadata.SealedIsAcceptedIff` | third_party/portable_ota/src/pota_metadata.c:145-187 | a freshly checksummed record is accepted without an upgrade if and only if it is well shaped and neither extension checksum reads 0 or 0xFFFFFFFF |
| `Metadata.CommittedFollows` | third_party/portable_ota/src/pota_metadata.c:241-272 | how every mutator ends: one sequence step, fresh checksums, a shape readers accept |
| `MetadataLaws.AcceptedIff` | third_party/portable_ota/src/pota_metadata.c:145-187 | whatever record is read, it is accepted without an upgrade if and only if its three checksums are right and not blank and the fields a reader checks are in range |
| `MetadataLaws.ChangedCoreIsRejected` | third_party/portable_ota/src/pota_metadata.c:145-161 | with a core that has another checksum than the one stored no record of either layout is valid |
| `MetadataLaws.ChangedPartsAreRejected` | third_party/portable_ota/src/pota_metadata.c:163-187 | nor one with such a copy transaction or boot mode part |
| `MetadataLaws.UpgradeKeepsTransaction` | third_party/portable_ota/src/pota_metadata.c:207-239 | an upgraded record is in copy mode, goes on with a copy transaction written before and has none where none was, and forgets only a source slot there is not |
| `MetadataLaws.ConversionAddsNothing` | components/ota_manager/src/ota_metadata.c:97-121 | a version 2 record is converted with its core as it is, no transaction, and copy mode |
| `MetadataLaws.VersionTwoIsKept` | components/ota_manager/src/ota_metadata.c:133-161 | a version 2 record that stands alone is what a load goes by, with its slots, pending image and attempts |
| `MetadataLaws.DefaultRunsSlotA` | third_party/portable_ota/src/pota_metadata.c:189-205 | the default record runs slot A, with nothing pending and nothing known of the slots, in the mode of the build |
| `MetadataLaws.BeginningACopy` | third_party/portable_ota/src/pota_metadata.c:341-366 | a copy transaction is begun if and only if it has two different slots and a size; it is that of the pending image if and only if it was begun from slot B to slot A with its size and checksum; and clearing it leaves no trace |
| `MetadataLaws.ClearingACopy` | third_party/portable_ota/src/pota_metadata.c:418-428 | clearing leaves no transaction, and changes nothing if and only if there was none |
| `MetadataLaws.FinishingAndFailing` | third_party/portable_ota/src/pota_metadata.c:368-416 | finishing is updating to done with all bytes written, failing is updating to failed with the bytes written so far, and neither happens without a transaction |
| `MetadataLaws.LastUpdateCounts` | third_party/portable_ota/src/pota_metadata.c:368-387 | of several updates only the last one counts |
| `MetadataLaws.MarkingPending` | third_party/portable_ota/src/pota_metadata.c:241-272 | marking an image is refused only without size or slot, starts it afresh, takes back what could be confirmed, and replaces an image marked before |
| `MetadataLaws.Confirming` | third_party/portable_ota/src/pota_metadata.c:274-306 | confirming succeeds if and only if the active slot was applied and nothing is pending; doing it again changes nothing |
| `MetadataLaws.SwitchingMode` | third_party/portable_ota/src/pota_metadata.c:308-327 | switching the boot mode withdraws what was pending or under way; only the last of several switches counts |
| `MetadataLaws.NothingToInstallAfterSwitch` | bootloader/src/bootloader_main.c:528-556 | the boot after switching to copy mode writes nothing |
| `MetadataLog.ReadCopy` | components/ota_manager/src/ota_metadata.c:133-161 | a copy is read as it is, or converted when only the version 2 layout is valid |
| `MetadataLog.LoadMetadata` | components/ota_manager/src/ota_metadata.c:133-169 | load always succeeds and returns the newest valid copy, upgraded if needed, or the default |
| `MetadataLog.NewestOfTwo` | third_party/portable_ota/src/pota_metadata.c:580-599 | the selection loop over two copies picks the valid one with the larger sequence, the first on a tie |
| `MetadataLog.StoreMetadata` | components/ota_manager/src/ota_metadata.c:171-208 | a successful store carries out exactly erase and program of the copy chosen by sequence parity; it fails only when a write is refused, after a prefix of them |
| `MetadataLog.CorruptCopy` | components/ota_manager/src/ota_metadata.c:351-358 | erasing a copy on purpose leaves that copy without a record and loses nothing else |
| `MetadataLog.ErasedCopyIsInvalid` | components/ota_manager/src/ota_metadata.c:78-95 | an erased copy is valid in neither layout |
| `MetadataLog.StoredCopyIsLive` | components/ota_manager/src/ota_metadata.c:171-208 | the record just stored is what its copy then holds |
| `MetadataLog.StoreCut` | components/ota_manager/src/ota_metadata.c:171-208 | whatever the flash step at which power fails during a store, only the copy being written differs, and it holds nothing, its old record or the new one |
| `MetadataLog.StoreComplete` | components/ota_manager/src/ota_metadata.c:171-208 | a completed store puts the record in its copy and leaves slots and the other copy alone |
| `MetadataLog.UpgradeIsFinalIffDistinct` | third_party/portable_ota/src/pota_metadata.c:207-239 | upgrading a valid record keeps its slots and attempts, seals it, and needs no second upgrade if and only if its checksums are not blank |
| `MetadataLog.ConversionKeepsSlots` | components/ota_manager/src/ota_metadata.c:97-121 | a version 2 record is converted with its slots kept, into a valid current record when its checksums are not blank |
| `MetadataRegister.Perform` | components/ota_manager/src/ota_metadata.c:210-376 | load, modify, store for every operation: a prefix of the planned flash writes is carried out, all of them when it reports success, none when the change is rejected |
| `MetadataRegister.DurableStep` | components/ota_manager/src/ota_metadata.c:133-208 | after a power loss at any step of a store the next load returns the record from before or the new one, and a valid copy at index i keeps sequence parity i |
| `MetadataRegister.DurableComplete` | components/ota_manager/src/ota_metadata.c:171-208 | a completed store is what the next load returns |
| `MetadataRegister.LogRefinesRegister` | components/ota_manager/src/ota_metadata.c:133-376 | for every run of operations with a power loss at any flash step the log behaves as one atomic register, keeps its parity invariant, and never falls back to the default once it holds a record |
| `MetadataRegister.OperationsFollow` | third_party/portable_ota/src/pota_metadata.c:241-428 | every operation stores a record one sequence step on, freshly checksummed and well shaped |
| `MetadataRegister.OperationsKeepTheRest` | third_party/portable_ota/src/pota_metadata.c:241-428 | what operations leave alone: the active slot and the digests always; images, confirmed slot, core, transaction and boot-mode part unless it is the operation's business |
| `MetadataRegister.RunKeepsTransactionBounded` | third_party/portable_ota/src/pota_metadata.c:341-428 | over whole runs a copy transaction never records more bytes than its image has |
| `MetadataRegister.RepairFillsBoth` | components/ota_manager/src/ota_metadata.c:360-376 | a completed repair leaves the loaded record in both copies, with the parity invariant kept |
| `MetadataRegister.RepairedLogSurvivesErasure` | components/ota_manager/src/ota_metadata.c:351-376 | after a completed repair, erasing either copy loses nothing but the sequence number |
| `MetadataRegister.PerformedIsTurn` | components/ota_manager/src/ota_metadata.c:210-376 | what a performed operation leaves, whole, up to a refused write, or cut by a power loss, is a turn of such a run |
| `MetadataRegister.FirstWriteErasesItsSource` | components/ota_manager/src/ota_metadata.c:128-208 | the first flash write of an operation erases the copy of the parity its record had if and only if that record needed an upgrade |
| `MetadataRegister.UpgradeEndangersItsSource` | components/ota_manager/src/ota_metadata.c:128-208 | after that write, an upgraded record that lay in the copy of its parity is lost: the next load falls back to the older other copy, or to the default when there is none |
| `MetadataRegister.DurableIffNoUpgrade` | components/ota_manager/src/ota_metadata.c:128-208 | for a record in the copy of its parity, the other copy older or empty: whatever the flash step of the store at which power fails, the next load returns the old record or the new one, if and only if the record needed no upgrade |
| `MetadataRegister.StoreIsSeenIffNoWrap` | components/ota_manager/src/ota_metadata.c:133-208 | a completed store is what the next load returns if and only if the sequence number did not wrap around |
| `BootPlan.EraseSizeBounds` | bootloader/src/bootloader_main.c:183-184 | the bit-mask rounding gives the least whole number of sectors that holds the image, inside the slot |
| `Bootloader.Engine.ChangeAndStore` | bootloader/src/bootloader_main.c:235-248 | a metadata change is taken over and stored, or rejected with nothing written |
| `Bootloader.Engine.StoreCopyTransaction` | bootloader/src/bootloader_main.c:125-149 | the transaction state is begun or updated and stored, exactly as planned |
| `Bootloader.Engine.StoreCopyFailure` | bootloader/src/bootloader_main.c:151-164 | failure state and boot result are stored, in that order |
| `Bootloader.Engine.CopyPages` | bootloader/src/bootloader_main.c:203-232 | the page loop, with its 64 KiB progress records, writes exactly its plan and leaves the destination equal to the image |
| `Bootloader.Engine.CopySlot` | bootloader/src/bootloader_main.c:166-233 | on success the destination is the source image followed by 0xFF to the end of its last sector (a slot copied onto itself is left erased); nothing outside that span and the metadata sectors changes, and the flash log is exactly the plan |
| `Bootloader.Engine.VerifyAndApply` | bootloader/src/bootloader_main.c:328-357 | verification, the done record and the switch are carried out as planned |
| `Bootloader.Engine.CountAndCopy` | bootloader/src/bootloader_main.c:296-328 | the attempt is counted before anything is erased, then staged image checked, copied, verified |
| `Bootloader.Engine.ApplyPendingImage` | bootloader/src/bootloader_main.c:250-358 | every branch of applying a pending image makes exactly its planned writes |
| `Bootloader.Engine.ApplyDirectAbPendingImage` | bootloader/src/bootloader_main.c:360-399 | every branch of applying a pending slot in direct mode makes exactly its planned writes |
| `Bootloader.Engine.DirectRollback` | bootloader/src/bootloader_main.c:401-442 | rollback goes to the confirmed slot if bootable, else the previous one, else fails with nothing written |
| `Bootloader.Engine.PrepareDirectActiveBoot` | bootloader/src/bootloader_main.c:444-475 | every branch of preparing an unconfirmed boot makes exactly its planned writes |
| `Bootloader.BootOnce` | bootloader/src/bootloader_main.c:528-556 | one boot from reset to the jump: where it ends and every flash write it made |
| `BootSafety.EnteredMayRun` | bootloader/src/bootloader_main.c:477-556 | from any contents of the flash, every boot that enters an application enters one in a slot with its stack in RAM and a Thumb reset handler, and if it is the active one and its size is on record, the whole image with the recorded checksum and the handler inside it; it idles only if slot A has no such application |
| `BootSafety.InvalidStageTells` | bootloader/src/bootloader_main.c:296-307 | a staged image that does not validate costs one attempt and is recorded as failed, with its reason, in the transaction and as the result of the boot |
| `BootSafety.ExhaustedTells` | bootloader/src/bootloader_main.c:281-287 | so is a job with no attempt left or no size, which costs nothing more |
| `BootSafety.OldProgramStillRuns` | bootloader/src/bootloader_main.c:281-307 | an update that is not installed never costs the program that is: the boot ends where it would have without it, both slots as they were |
| `BootSafety.OnlySlotBIsInstalled` | bootloader/src/bootloader_main.c:250-266 | in copy mode an offer of slot A is recorded as none and taken back, one of an unknown slot is not even recorded, and the boot ends as without it |
| `SlotCopy.PageStep` | bootloader/src/bootloader_main.c:206-222 | programming the next page reads back as programmed, extends the copied prefix and keeps the rest of the span erased |
| `SlotCopy.CopySlotCompletes` | bootloader/src/bootloader_main.c:166-233 | the copy plan, for every image size, installs the image when it succeeds and never writes outside its span and the metadata sectors |
| `SlotCopy.ProgressClimbs` | bootloader/src/bootloader_main.c:206-231 | recorded progress strictly increases, never exceeds the image size and ends at it |
| `PowerLoss.CutIsInSomeWrite` | bootloader/src/bootloader_main.c:250-358 | every flash step at which power can fail during a boot lies inside some write of its plan |
| `CopyRuns.MarkingStartsJob` | third_party/portable_ota/src/pota_metadata.c:241-272 | marking an image pending in copy mode starts a job with no erasure made |
| `CopyRuns.FirstJobStarts` | third_party/portable_ota/src/pota_metadata.c:189-272 | on a new device, whatever its slots hold, marking the first image starts a job: the hypothesis of the run theorems is met |
| `CopyRuns.CopyInstalls` | bootloader/src/bootloader_main.c:318-327 | a copy that succeeded has put the staged image at the start of slot A |
| `CopyRuns.PendingBoot` | bootloader/src/bootloader_main.c:528-545 | while a copy-mode job is pending a boot makes the copy-to-active writes and no others |
| `CopyRuns.AppliedBoot` | bootloader/src/bootloader_main.c:491-556 | once the image is applied a boot writes nothing and enters it exactly when it validates |
| `CopyRuns.SafeCut` | bootloader/src/bootloader_main.c:250-358 | from every crash point of a boot the staged bytes and the pending record are intact, or the image is applied; each erasure begun is covered by a stored attempt |
| `CopyRuns.BootsKeepTheJob` | bootloader/src/bootloader_main.c:250-358 | the same over any number of boots and power losses, with erasures counted |
| `CopyRuns.AtMostThreeErasures` | bootloader/inc/bootloader_config.h:11 | for one pending image slot A is erased at most three times over any number of power cycles |
| `MixedRuns.MixedRunsKeepTheJob` | bootloader/src/bootloader_main.c:250-358 | boots and application operations that leave the pending image alone, in any order, each cut anywhere: the staged image is intact and asked for until it is in use, then it stays in use, and each erasure begun is covered by a stored attempt |
| `MixedRuns.AtMostThreeErasuresInMixedRuns` | bootloader/inc/bootloader_config.h:11 | the bound of three erasures holds over those runs too |
| `MixedRuns.MixedRunThenBoot` | bootloader/src/bootloader_main.c:250-358 | after any such run, one uninterrupted boot with an attempt left enters the new image |
| `MixedRuns.PutsAreAllOps` | components/ota_manager/src/ota_metadata.c:210-376 | the flash writes of an operation in those runs are those of the operation performed |
| `CopyConverges.InstalledValidatesIff` | bootloader/src/bootloader_main.c:56-88 | an installed image validates exactly when the staged one does |
| `CopyConverges.ActiveValidationNeverFails` | bootloader/src/bootloader_main.c:335-343 | after a copy of a valid staged image the branch that reports a bad active slot is never taken |
| `CopyConverges.DoneResumes` | bootloader/src/bootloader_main.c:268-279 | a crash after the transaction was recorded as done resumes with one record and no copying |
| `CopyConverges.UninterruptedBootAppliesIff` | bootloader/src/bootloader_main.c:250-358 | one uninterrupted boot installs a valid staged image and enters it if and only if the transaction is done or an attempt is left |
| `CopyConverges.CrashesThenBoot` | bootloader/src/bootloader_main.c:250-358 | after any number of crashes, one uninterrupted boot with an attempt left ends in the new image |
| `CopyConverges.InvalidStageIsReported` | bootloader/src/bootloader_main.c:300-307 | a staged image that does not validate is reported as such, with its size and checksum, and nothing but records is written |
| `CopyConverges.ExhaustedIsReported` | bootloader/src/bootloader_main.c:281-287 | with the attempts used up the job is reported as such, and nothing but records is written |
| `CopyConverges.NothingInstalledNothingTouched` | bootloader/src/bootloader_main.c:281-307 | both slots survive every boot that has nothing valid to install or no attempt left |
| `CopyRecords.DoneRecordsMatch` | bootloader/src/bootloader_main.c:113-149 | every record a pending boot writes that says the transaction is done says so of the pending image, from slot B to slot A |
| `CopyRecords.BootPassesDone` | bootloader/src/bootloader_main.c:345-358 | a boot that installs a valid image stores such a record, with the image installed, just before the record that applies it |
| `CopyRecords.OnceDoneNeverCopiedAgain` | bootloader/src/bootloader_main.c:268-279 | from any crash point past that record, even with the attempts used up, no power cycle erases or programs a slot again, and the next whole boot applies the image and enters it |
| `CopyTrail.UpdateLeavesItsTrail` | bootloader/src/bootloader_main.c:166-358 | the whole trail of a successful update: started, the attempt counted before anything is erased, one erasure, progress at every 64 KiB and at the end, verified, done, and only then applied |
| `DirectRuns.TrialBoot` | bootloader/src/bootloader_main.c:444-475 | a boot of an unconfirmed slot stores one record and enters that slot while it has boots left, else the confirmed one |
| `DirectRuns.SettledForGood` | bootloader/src/bootloader_main.c:454-456 | after the first boot of the confirmed slot every boot is one of it, and writes nothing |
| `DirectRuns.TrialIsBounded` | bootloader/src/bootloader_main.c:401-475 | however often power fails, at most 3 - boot_attempts further boots enter the unconfirmed slot (none if it does not validate); the next goes to the confirmed slot, and so does every one after it |
| `MixedTrials.MixedTrialIsBounded` | bootloader/src/bootloader_main.c:401-475 | the same bound over runs in which the application performs operations in between that leave the trial alone, each cut anywhere |
| `DirectRuns.UncutTrialIsExact` | bootloader/src/bootloader_main.c:444-475 | without power losses the slot on trial gets every one of those boots |
| `DirectRuns.NewDeviceIsSettled` | third_party/portable_ota/src/pota_metadata.c:189-205 | a new device built for direct mode, with a program in slot A, runs slot A as its confirmed slot |
| `DirectRuns.MarkingOffers` | third_party/portable_ota/src/pota_metadata.c:241-272 | marking a valid image pending in the other slot of a settled device offers it for trial |
| `DirectRuns.OfferStartsTrial` | bootloader/src/bootloader_main.c:360-399 | applying a valid pending slot enters it and leaves two more boots: three in all |
| `DirectOffers.OfferIsTakenIff` | bootloader/src/bootloader_main.c:360-399 | an offered slot other than the confirmed one is entered if and only if its image validates and an attempt is left; otherwise the confirmed slot is entered, and the next load has it active and confirmed, nothing pending, the reason, the refused slot with size and checksum, and one more rollback |
| `DirectOffers.UnknownOfferIsIgnored` | bootloader/src/bootloader_main.c:370-377 | an offer of a slot there is not changes nothing |
| `DirectOffers.OfferWithoutActiveSlot` | bootloader/src/bootloader_main.c:370-377 | without an active slot an offer is recorded as none and taken back, no rollback counted, and the boot falls back to slot A |
| `DirectOffers.GivenUpGoesTo` | bootloader/src/bootloader_main.c:401-475 | a slot that is given up is left for the confirmed slot if that is bootable, else for the previous one, and this is recorded; if neither is, nothing is |
| `DirectOffers.ConfirmedSlotUnbootable` | bootloader/src/bootloader_main.c:444-556 | a confirmed slot that cannot be booted is not given up: nothing is recorded, and the boot falls back to slot A |
| `DirectRuns.RollbackIsReported` | third_party/portable_ota/src/pota_metadata.c:543-566 | a rollback records what failed and why and counts itself, and the slot given up cannot be confirmed afterwards |
| `DirectRuns.ConfirmingSettles` | third_party/portable_ota/src/pota_metadata.c:274-306 | confirming is possible exactly after an applied boot, and then every later boot enters the confirmed new slot |
| `BissCrc.CrcComputeBits` | tools/biss_wavegen/biss_wave_validate.py:160-182 | the register loop computes the register recursion and final xor, for every width, including widths the loop skips |
| `BissCrc.OddPolynomialDetectsBursts` | tools/biss_wavegen/biss_wave_validate.py:160-182 | for an odd polynomial any init, xor and invert, two messages differing inside a window of crc_bits bits get different checksums |
| `BissCrc.EvenPolynomialMissesABurst` | tools/biss_wavegen/biss_wave_validate.py:160-182 | with an even polynomial some burst goes unnoticed |
| `BissCrc.BurstsDetectedIffOdd` | tools/biss_wavegen/biss_wave_validate.py:160-182 | every burst no longer than the checksum is detected if and only if the polynomial is odd |
| `BissRemainder.ChecksumIsRemainder` | tools/biss_wavegen/biss_wave_validate.py:160-182 | the checksum is the remainder of the message, padded with zeros and with the initial value added, divided by the generator polynomial over GF(2), with final xor and inversion applied to its bits |
| `BissRemainder.RemainderIsUnique` | tools/biss_wavegen/biss_wave_validate.py:160-182 | there is just one such remainder |
| `BissFrame.ReadOwnWrite` | tools/biss_wavegen/biss_wavegen.py:42-58 | a field just written reads back as its low bits |
| `BissFrame.ReadOtherWrite` | tools/biss_wavegen/biss_wavegen.py:42-58 | writing one field leaves every disjoint field unread |
| `BissFrame.FrameRoundTrip` | tools/biss_wavegen/biss_wavegen.py:101-124 | a built frame yields back anchor, position and inactive status bits, and fits the frame width |
| `BissFrame.BuiltFramePassesCrc` | tools/biss_wavegen/biss_wave_validate.py:185-200 | the validator accepts the checksum of a built frame if and only if the cover is not empty, or the checksum of nothing happens to be 0 |
| `BissFrame.CorruptedFrameFailsCrc` | tools/biss_wavegen/biss_wave_validate.py:185-200 | a frame that passes fails after any burst of at most crc_bits bits in its cover |
| `BissValidate.ValidateFrames` | tools/biss_wavegen/biss_wave_validate.py:211-263 | the validation loop returns the tally of its frames: positions, gates, crossings and failures in order |
| `BissValidate.CrossedIsRingDistance` | tools/biss_wavegen/biss_wave_validate.py:203-208 | a crossing is seen if and only if 1 <= (target - last) mod M <= (current - last) mod M |
| `BissValidate.CrossedIsNextHit` | tools/biss_wavegen/biss_wave_validate.py:203-208 | for an encoder that moves less than a turn, a crossing is seen if and only if a multiple of the turn past the target lies between the two positions |
| `BissValidate.CountedPlusHidden` | tools/biss_wavegen/biss_wave_validate.py:225-250 | over every list of frames, crossings counted and crossings hidden by a closed gate add up to all there were |
| `BissValidate.CrossingCountIsExact` | tools/biss_wavegen/biss_wave_validate.py:225-250 | crossing_count is the number of k with 0 < target + kM <= final position if and only if no crossing frame is blocked or fails its CRC |
| `BissValidate.GeneratedFramesValidate` | tools/biss_wavegen/biss_wave_validate.py:211-263 | generated frames validate without failure and report the positions they were built from |
| `BissValidate.GeneratedCrossingsExact` | tools/biss_wavegen/biss_wave_validate.py:225-250 | the crossings of frames generated from a rising encoder are counted exactly |
| `BissVerdict.FrameIsSeen` | tools/biss_wavegen/biss_wave_validate.py:223-243 | what is read of a frame, bit by bit: its position field; its anchor compared under the mask; status active low, and blocking only behind the gate that says so |
| `BissVerdict.VerdictRaisesIff` | tools/biss_wavegen/biss_wave_validate.py:152-158 | the validator raises if and only if there is a frame and a field that begins past its own end |
| `BissVerdict.VerdictTells` | tools/biss_wavegen/biss_wave_validate.py:211-263 | for every list of frames: the counts are the numbers of frames that fail the checksum and that have an active status bit; a frame is listed if and only if its checksum or anchor is wrong, expected frames and positions if and only if given and not met; and nothing is listed if and only if nothing is wrong |
| `BissVerdict.BurstFailsVerdict` | tools/biss_wavegen/biss_wave_validate.py:240-243 | so a burst of at most crc_bits bits in the cover of any frame makes the list fail and names that frame |
| `BissWave.RowList.AppendSample` | tools/biss_wavegen/biss_wavegen.py:131-142 | a sample is appended, pushed 1 ns past the previous row when it is not later |
| `BissWave.GenerateRows` | tools/biss_wavegen/biss_wavegen.py:145-168 | the generated rows are the nominal samples, stamped; a clock of 0 raises |
| `BissWave.DecodeFrames` | tools/biss_wavegen/biss_wave_validate.py:124-149 | the decoder collects the bits sampled on active edges, frame by frame in ascending order, with missing bits reported |
| `BissWave.WaveformRoundTrip` | tools/biss_wavegen/biss_wave_validate.py:124-149 | on either edge, for every clock and idle count, decoding the generated rows returns exactly the frames, cut to the frame width, with no failure |
| `BissWave.CarriedUnchangedIffFits` | tools/biss_wavegen/biss_wavegen.py:127-128 | frames come back unchanged if and only if each fits in frame_bits bits |
| `BissWave.RowTimes` | tools/biss_wavegen/biss_wavegen.py:131-168 | row times strictly increase, and are within 1 ns of nominal when the half period is at least 2 ns |
| `BissShape.RowsOfFrame` | tools/biss_wavegen/biss_wavegen.py:145-168 | every row of a waveform in closed form: idle pulses with the line at its last level, then the bits of the frame, most significant first, each set up and pulsed, at multiples of the half period |
| `BissShape.RowCount` | tools/biss_wavegen/biss_wavegen.py:145-168 | and there are no other rows |
| `BissShape.HalfPeriodIsFloor` | tools/biss_wavegen/biss_wavegen.py:145-148 | two half periods are at most a clock period, and with one nanosecond more each they would not be |
| `BissShape.SeenIsLastSample` | tools/biss_wavegen/biss_wave_validate.py:124-135 | in any rows, a bit of a frame is seen if and only if an active edge shows it, as the last of them shows it |
| `BissShape.IncompleteFramesAreReported` | tools/biss_wavegen/biss_wave_validate.py:136-149 | a frame that lacks a bit is reported with its first missing bits, at most eight, and yields no frame; every other one seen yields one |
| `BissEndToEnd.OnlyDecoding` | tools/biss_wavegen/biss_wave_validate.py:124-149 | a decoder can return nothing else for a generated waveform |
| `BissEndToEnd.PositionsSurvive` | tools/biss_wavegen/biss_wave_validate.py:211-263 | positions in, positions out: frames built, clocked out, sampled and validated report the positions they were made from, with nothing wrong |
| `EventBus.Bus.PostOtaEvent` | components/event_bus/src/event_bus.c:28-62 | the in-place post, with its copy into the slot buffer from the poster's memory or from the ring itself, is the post of the ring value; a null event is refused |
| `EventBus.RepostDelivers` | components/event_bus/src/event_bus.c:43-51 | an event that was received can be posted again and is queued as it then reads |
| `EventBus.Bus.TryReceiveOtaEvent` | components/event_bus/src/event_bus.c:64-85 | the in-place receive is the receive of the ring value |
| `EventBus.PostAppends` | components/event_bus/src/event_bus.c:28-62 | a post is accepted if and only if there is room and the event is in order; then it joins the queue with its bytes as posted, else the queue is as it was |
| `EventBus.ReceiveTakes` | components/event_bus/src/event_bus.c:64-85 | a receive takes the first message; its bytes are where the delivered event points |
| `EventBus.FirstInFirstOut` | components/event_bus/src/event_bus.c:28-85 | over every run, deliveries and what is still queued are what was queued and what has been accepted, in order |
| `EventBus.RejectedPostIgnored` | components/event_bus/src/event_bus.c:36-50 | a rejected post changes nothing any later run can observe |
| `EventBus.PayloadLifetime` | components/event_bus/src/event_bus.c:64-85 | the buffer of an event received from a queue of c stays intact through the next 8 - c accepted posts |
| `EventBus.PayloadLifetimeIsTight` | components/event_bus/src/event_bus.c:43-51 | one more accepted data block lands in that very buffer |
| `Arbiter.ResourceArbiter.AcquireOwned` | components/resource_arbiter/src/resource_arbiter.c:90-126 | the 32-bit loop and the conflict record are the acquire of the arbiter value |
| `Arbiter.ResourceArbiter.ReleaseOwned` | components/resource_arbiter/src/resource_arbiter.c:133-160 | the release loop is the release of the arbiter value |
| `Arbiter.ResourceArbiter.CanBeginOtaNow` | components/resource_arbiter/src/resource_arbiter.c:66-83 | the answer is read off a woken arbiter |
| `Arbiter.ResourceArbiter.FirstOwnerOf` | components/resource_arbiter/src/resource_arbiter.c:24-37 | the owner on the lowest bit that has one |
| `Arbiter.ResourceArbiter.PublishTriggerActivity` | components/resource_arbiter/src/resource_arbiter.c:54-64 | only the two trigger flags change |
| `Arbiter.AcquireKeepsGood` | components/resource_arbiter/src/resource_arbiter.c:90-126 | an owner is recorded only on an active bit, and mode is OTA exactly while FLASH is active |
| `Arbiter.ReleaseKeepsGood` | components/resource_arbiter/src/resource_arbiter.c:133-160 | the same after a release |
| `Arbiter.AllOrNothing` | components/resource_arbiter/src/resource_arbiter.c:90-126 | an acquire succeeds if and only if its non-empty set is free, takes all of it, and otherwise changes neither resources, owners nor mode |
| `Arbiter.ReleaseUndoesAcquire` | components/resource_arbiter/src/resource_arbiter.c:90-160 | releasing under the same name or none undoes an acquire completely |
| `Arbiter.WrongNameKeepsAll` | components/resource_arbiter/src/resource_arbiter.c:133-160 | releasing under another name gives back nothing |
| `Arbiter.NamedReleaseKeepsOthers` | components/resource_arbiter/src/resource_arbiter.c:133-160 | a release under a name frees exactly what is recorded under that name of what it asks for |
| `Arbiter.RefusalTellsWhy` | components/resource_arbiter/src/resource_arbiter.c:110-119 | a refused acquire records the part that is taken, who asked, and the owner on its lowest owned bit |
| `Arbiter.RefusalNamesAHolder` | components/resource_arbiter/src/resource_arbiter.c:110-119 | the holder named does hold something of what was asked for |
| `Arbiter.DisciplinedRunsShare` | components/resource_arbiter/src/resource_arbiter.c:90-160 | over whole runs of clients that release only what they acquired, holdings are disjoint, active under their holder's name, and nothing else is active |
| `Arbiter.RunsFromColdShare` | components/resource_arbiter/src/resource_arbiter.c:39-52 | in particular over every such run from power-up |
| `Arbiter.OtaNeedsFreeFlash` | components/resource_arbiter/src/resource_arbiter.c:66-83 | OTA may begin if and only if nothing is running and no client holds FLASH |
| `Jobs.NextKeepsInv` | components/storage_manager/src/storage_manager.c:1686-1911 | each post, service call and disturbance keeps ids non-zero, steps in range, and what an evidence job has carried out in order, with one more time for every misread |
| `Jobs.EvidenceInOrder` | components/storage_manager/src/storage_manager.c:1860-1906 | over every run an ended evidence job went on from its snapshot, then its trace, then its report, once each, and is done if and only if the results it went on with are all successes; what it was granted comes in that order too |
| `Jobs.EvidenceExactlyOnceIff` | components/storage_manager/src/storage_manager.c:1860-1906 | each of the three is carried out once, once more for every failure of it taken for a refusal, once less if a refusal of it is taken for a failure; so each exactly once, with the results the job went on with, if and only if these are equally many for each |
| `Jobs.EvidenceExactlyOnce` | components/storage_manager/src/storage_manager.c:1860-1906 | so exactly once whenever no result is misread, as when no competing call writes the storage error between an operation's last write of it and its test |
| `Jobs.JobsInOrder` | components/storage_manager/src/storage_manager.c:1697-1858 | over every run every other job that ended went on from exactly the operations of its kind, in order: one lookup or snapshot; one initialisation and one scan if it succeeded; one scan, and after a failed one at most an initialisation and a second scan; and it is done if and only if the last of them succeeded |
| `Jobs.SnapshotIsMadeTwice` | components/storage_manager/src/storage_manager.c:1331-1336 | a run in which a competing post has a failed snapshot made twice |
| `Jobs.SnapshotIsLost` | components/storage_manager/src/storage_manager.c:813-822 | a run in which a competing probe of a ready card has a refused snapshot never made |
| `Jobs.MissingManifestIsMisread` | components/storage_manager/src/storage_manager.c:1810-1823 | a missing manifest is looked for again, and not made, for as long as each test of the scan reads RESOURCE_BUSY |
| `Jobs.ActiveNeverOverwritten` | components/storage_manager/src/storage_manager.c:1331-1336 | over every run of posts and disturbances an active job, what it has tried and the ids stay as they are |
| `Jobs.TerminalIsStable` | components/storage_manager/src/storage_manager.c:1686-1691 | a finished job stays as it is until the next post is taken |
| `Jobs.NextIdDiffers` | components/storage_manager/src/storage_manager.c:1338-1342 | ids are never 0, and consecutive jobs have different ids |
| `Jobs.ProgressIffThrough` | components/storage_manager/src/storage_manager.c:1686-1911 | a service call moves the job on if and only if its result is not read as RESOURCE_BUSY, or no operation is run and the error is not RESOURCE_BUSY either |
| `Jobs.JobEnds` | components/storage_manager/src/storage_manager.c:1686-1911 | a job has ended once as many service calls got through as it has steps left |
| `Jobs.JobEndsWithinThree` | components/storage_manager/src/storage_manager.c:1686-1911 | three service calls that get through end any job |
| `Jobs.SkippedStepWaitsIffBusy` | components/storage_manager/src/storage_manager.c:1836-1842 | after a failed initialisation the job is still active, however often it is served, if and only if every test of the skipped scan so far read RESOURCE_BUSY |
| `Jobs.StaleBusyBlocks` | components/storage_manager/src/storage_manager.c:1836-1858 | with RESOURCE_BUSY left behind and no competing call to clear it, service calls never end the job |
| `Jobs.StaleBusyIsReachable` | components/storage_manager/src/storage_manager.c:1331-1336 | a competing post brings that state about |
| `Moments.FollowsTrans` | components/resource_arbiter/src/resource_arbiter.c:90-160 | operations in a row leave to other tasks exactly what those were granted and have not given back |
| `Card.Volume.WriteAtomic` | middleware/fatfs_port/src/fatfs_port.c:426-471 | a file is written under a temporary name and renamed: on success a new file and no other changed, otherwise no file lost |
| `Card.RangeReadsBack` | middleware/fatfs_port/src/fatfs_port.c:265-324 | a range that was read holds the bytes of the file from the offset on, and is cut short only by its end |
| `Storage.Manager.OthersAct` | middleware/scpi_port/src/scpi_storage_commands.c:24-40 | other tasks acquire, release, post and see to the card as they like; what storage holds stays with it, and unless a competing call wrote last the vector is as it was |
| `Storage.Manager.AcquireBus` | components/resource_arbiter/src/resource_arbiter.c:90-126 | storage gets the bus whole, or the arbiter is on record as having refused it |
| `Storage.Manager.ReleaseBus` | components/resource_arbiter/src/resource_arbiter.c:133-160 | the bus is given back, and what is then active is exactly what the others hold |
| `Storage.Manager.Probe` | components/storage_manager/src/storage_manager.c:808-885 | on every path what is active afterwards is what was, with exactly the moves of other tasks; success means the arbiter refused nothing during this call; and the error is what a competing call left, if one wrote last, or else reads RESOURCE_BUSY if and only if the arbiter refused this call |
| `Storage.Manager.LookUp` | components/storage_manager/src/storage_manager.c:937-1120 | the same for file information, file ranges and catalog pages; the path worked on is the normalised one, the attempt is recorded with the arbiter's refusal, and what is reported of the card is there: size, bytes of the range, or directory |
| `Storage.Manager.InitializeSystemPack` | components/storage_manager/src/storage_manager.c:588-806 | the same, on every exit of the system pack initialisation; no file is lost, and success means that the card had a manifest or now has every directory and file of the pack |
| `Storage.Manager.ScanManifest` | components/storage_manager/src/storage_manager.c:1913-2053 | the same; success means a manifest on the card, and a refused scan never reads as a missing one |
| `Storage.Manager.WriteSnapshot` | components/storage_manager/src/storage_manager.c:2055-2191 | the same; success means a new numbered file in the directory of its kind, every other file kept, and the vector tells of it |
| `Storage.Manager.WriteTrace` | components/storage_manager/src/storage_manager.c:2193-2338 | the same; success means a new file that holds header and records of the events in the ring, and its index |
| `Storage.Manager.WriteFaultReport` | components/storage_manager/src/storage_manager.c:2340-2461 | the same, for fault reports |
| `Storage.Manager.PostFileInfoJob` | components/storage_manager/src/storage_manager.c:1331-1373 | a post is the job machine's post; published vector and job agree; a job taken works on the canonical path, a refused one reports the path as given and PATH_DENIED |
| `Storage.Manager.PostFileReadJob` | components/storage_manager/src/storage_manager.c:1375-1439 | the same, with offset and length as asked for, the length capped at 128 and zero refused |
| `Storage.Manager.PostCatalogPageJob` | components/storage_manager/src/storage_manager.c:1463-1529 | the same, with offset and limit as asked for and a zero limit refused |
| `Storage.Manager.PostSnapshotJob` | components/storage_manager/src/storage_manager.c:1548-1595 | the same, with the kind kept for the job, boot for none, and an unknown kind refused |
| `Storage.Manager.PostPlainJob` | components/storage_manager/src/storage_manager.c:1597-1676 | the same, for the three jobs without an argument, each with its fixed path |
| `Storage.Manager.ServeEvidenceSnapshot` | components/storage_manager/src/storage_manager.c:1877-1886 | the first step of an evidence job runs one snapshot, sets its flag and goes on unless the error reads RESOURCE_BUSY; a flag set means the file is on the card |
| `Storage.Manager.ServeEvidenceTrace` | components/storage_manager/src/storage_manager.c:1888-1897 | the second step, likewise: a flag set means the card holds a new trace file with the events of the ring |
| `Storage.Manager.ServeEvidenceReport` | components/storage_manager/src/storage_manager.c:1899-1905 | the third step, which ends the job |
| `Storage.Manager.ServiceJob` | components/storage_manager/src/storage_manager.c:1686-1911 | every service call is a step of the job machine, with the arbiter's refusal and what a competing call left before the test, and answers the request: a job that goes on keeps it; a job that is done has done what was asked (the snapshot of its kind is a new file, whose path and number are published; the lookup publishes the normal form of its path and what is there; a sound manifest is on the card); a job that failed publishes its error, which is missing only if a competing call wiped it out. It leaves to other tasks what they hold, and keeps every file |
| `Storage.Manager.FinishAroundPost` | components/storage_manager/src/storage_manager.c:1698-1722 | a post landing inside the end of a job is taken as if it came after, but is overwritten: it keeps its own path if and only if that is the path of the job that ended |
| `Storage.Manager.DoneIsOnCard` | components/storage_manager/src/storage_manager.c:1860-1906 | an evidence job that is done has left its three files on the card |
| `Path.NormalizePath` | components/storage_manager/src/storage_manager.c:300-366 | the trimming, copying and stripping loops compute the canonical path or refuse |
| `Path.AcceptedPaths` | components/storage_manager/src/storage_manager.c:300-366 | every accepted path is absolute, free of doubled and trailing slashes, parent components and forbidden characters, at most 95 long, and the root or under an allowed root on a component boundary |
| `Path.NormalizingAgain` | components/storage_manager/src/storage_manager.c:300-366 | normalising an accepted path again returns it if and only if it does not end in a space |
| `Path.SpaceBeforeSlash` | components/storage_manager/src/storage_manager.c:307-310 | an input for which normalising twice differs from once |
| `Path.AcceptedPathsKeepNames` | components/storage_manager/src/storage_manager.c:330-353 | an accepted path names the same components as the trimmed input |
| `PathMeaning.AcceptedIff` | components/storage_manager/src/storage_manager.c:300-366 | a path is accepted if and only if, blanks at its end apart, it is empty, or absolute, short enough, free of forbidden characters, begins with an allowed root and has no parent component and no dot but at the very end; what is written out is its canonical form |
| `Trace.Ring.TraceEvent` | components/storage_manager/src/storage_manager.c:489-509 | the ring holds the most recent 64 events, oldest first, after every event |
| `Trace.Ring.WritePayload` | components/storage_manager/src/storage_manager.c:2241-2273 | the written file is header and records of the last min(n, 64) events |
| `Trace.DecodeTrace` | tools/sd_trace_decode/sd_trace_decode.py:494-565 | the decoding loop returns records, unwrapped times and checks of its data and index values, or the error of the first test that fails |
| `Trace.FileRoundTrip` | tools/sd_trace_decode/sd_trace_decode.py:494-565 | decoding a written file, with or without the index written for it, yields its events in order with every check true |
| `TraceChecks.FileIsDecoded` | tools/sd_trace_decode/sd_trace_decode.py:494-565 | any file that has the records its header counts is decoded to the records whose bytes it holds; magic, schema, size and checksum check exactly their own part, and the index check all seven values |
| `TraceChecks.WrittenIsFile` | components/storage_manager/src/storage_manager.c:2241-2273 | the file as it is written is such a file |
| `TraceChecks.ChecksNotice` | tools/sd_trace_decode/sd_trace_decode.py:544-562 | for a written file tampered with, each check is false if and only if what it stands for is no longer as written |
| `TraceChecks.AlteredEventIsNoticed` | tools/sd_trace_decode/sd_trace_decode.py:521-548 | an altered event is decoded as altered and fails the checksum unless that happens to be the same |
| `TraceChecks.CutFileIsRefused` | tools/sd_trace_decode/sd_trace_decode.py:495-519 | a file cut short anywhere is not decoded |
| `TraceChecks.ShortHeaderIsRefused` | tools/sd_trace_decode/sd_trace_decode.py:516-517 | nor one whose header claims to be shorter than it is |
| `Trace.ExtendedTimestamps` | tools/sd_trace_decode/sd_trace_decode.py:301-309 | the loop over epochs computes the unwrapped times |
| `Trace.UnwrapsIffClose` | tools/sd_trace_decode/sd_trace_decode.py:301-309 | for times that never decrease, unwrapped and true times differ by one constant if and only if no gap reaches 2^32 ms |
| `Trace.EpochIsMultiple` | tools/sd_trace_decode/sd_trace_decode.py:301-309 | that constant is a multiple of 2^32 |
| `Package.BuildPackage` | tools/ota_packager/ota_packager.py:103-137 | the writes into the header, in the packager's order, give the header of non-overlapping blocks followed by both images; text errors are raised in order |
| `Package.ParsePackage` | tools/sd_fs_build/sd_fs_build.py:63-129 | the reading loop returns the parsed information, with checksum and digest of the file, or the error of the first test that fails |
| `Package.AlignUpIsLeast` | tools/ota_packager/ota_packager.py:68-69 | the second image starts at the least multiple of 512 that is not below the end of the first |
| `Package.PackingKeepsOrder` | tools/ota_packager/ota_packager.py:82-84 | packing versions is injective and order preserving on 0..255 triples, and fits a header word |
| `Package.TextRoundTripIff` | tools/sd_fs_build/sd_fs_build.py:74-76 | a text comes back from its field if and only if it holds no NUL |
| `Package.PackageRoundTripIff` | tools/sd_fs_build/sd_fs_build.py:83-129 | a built package is accepted if and only if it is shorter than 2^32 bytes, and then every field comes back as given |
| `Package.RegionsSliceBack` | tools/sd_fs_build/sd_fs_build.py:98-112 | each listed region slices back to its image; header and regions do not overlap and end at the end of the file |
| `PackageChecks.BuildsIffTextsFit` | tools/ota_packager/ota_packager.py:53-57 | a package is built if and only if its three texts are ASCII and shorter than their fields; else the first that is not is complained of |
| `PackageChecks.FieldHoldsText` | tools/ota_packager/ota_packager.py:53-57 | a text stands at the start of its field and zeros fill the rest |
| `PackageChecks.RestOfHeader` | tools/ota_packager/ota_packager.py:103-137 | every header byte that no field takes up reads 0xFF, and the reserved word is zero |
| `PackageChecks.ReadsIff` | tools/sd_fs_build/sd_fs_build.py:83-112 | a file is read if and only if it is as long as a header, begins with the magic word, is as long as it says, and lists at most ten images; the first that fails is complained of, and every entry is read from its place |
| `PackageChecks.CutOrLongerIsRefused` | tools/sd_fs_build/sd_fs_build.py:83-95 | a package cut short or with anything appended is refused |
| `PackageChecks.OtherMagicIsRefused` | tools/sd_fs_build/sd_fs_build.py:88-90 | so is one with another magic word |

## Left out

- `storage_manager_service`: the scheduling of the boot snapshot and its time budget; only the job service it calls is modelled.
- `storage_manager_catalog`, raw sector access and formatting: the same acquire and release shape as the operations modelled.
- Manifest text, JSON payloads and the text of index files: the outcome of parsing and formatting is arbitrary, so required
  entries and texts too long for their buffer appear only as outcomes; a stored path or argument is kept whole where the firmware
  cuts it to its buffer.
- Commands that destroy what is on the card (raw clear, format) running inside a service call.
- Storage.Manager.ServiceJob: calls landing between the test of a result and the end of the service call are not part of the step;
  `Storage.Manager.FinishAroundPost` shows what the one that matters does.
- Numbers of files are whatever the card's directory listing gives; that they are new is shown by the rename.
- Storage.Manager.LookUp: file_info, read_file_range and catalog_page share one method, since they differ only in what they
  ask the card; the text of a page, and its next offset and end marks, are not modelled.
- Storage.Manager.WriteTrace: events traced by other tasks during the call are taken to come before or after it, as the ring is
  copied in one critical section; the text of the index file is arbitrary.
- Package.ParsePackage: the hexadecimal formatting of numbers is not modelled.
- Trace.DecodeTrace: event names and decoded details, and the parsing of the index file's text, are not modelled.
- Names of owners are compared as strings; a pointer comparison that finds two equal names different does not occur.
- The bootloader's fault-injection block, which release builds leave out, and the jump into the application.
- Reading argument strings, CSV and summary files, and the error texts of the Python tools; exceptions are modelled by kind.
- Tasks are interleaved between calls, not inside the critical sections of the firmware.
- The OTA front end, serial and bench tools, configuration user interface, board start-up and input/output drivers.
