/** The OTA metadata record: its three checksummed parts, its bytes, and the operations that change it. */
module Metadata {
  import opened Outcomes
  import opened Bytes

  const SLOT_NONE: u32 := 0
  const SLOT_A: u32 := 1
  const SLOT_B: u32 := 2

  const METADATA_MAGIC: u32 := 0x4F544D44
  const METADATA_VERSION: u32 := 3
  const VERSION_V2: u32 := 2

  const MODE_COPY_TO_ACTIVE: u32 := 0
  const MODE_DIRECT_AB: u32 := 1
  const CAP_COPY_TO_ACTIVE: u32 := 1
  const CAP_BOTH: u32 := 3

  const RESULT_NONE: u32 := 0
  const RESULT_APPLIED: u32 := 1
  const RESULT_NO_PENDING: u32 := 2
  const RESULT_MAX_ATTEMPTS: u32 := 3
  const RESULT_STAGE_VALIDATE_FAILED: u32 := 4
  const RESULT_COPY_FAILED: u32 := 5
  const RESULT_ACTIVE_VALIDATE_FAILED: u32 := 6

  const TXN_NONE: u32 := 0
  const TXN_STARTED: u32 := 1
  const TXN_ERASED_ACTIVE: u32 := 2
  const TXN_PROGRAMMING: u32 := 3
  const TXN_VERIFYING: u32 := 4
  const TXN_DONE: u32 := 5
  const TXN_FAILED: u32 := 6

  type Digest = b: seq<byte> | |b| == 32 ghost witness Fill(0, 32)

  datatype Core = Core(
    magic: u32, version: u32, sequence: u32,
    activeSlot: u32, pendingSlot: u32, confirmedSlot: u32, bootAttempts: u32, rollbackCount: u32,
    slotASize: u32, slotACrc32: u32, slotASha256: Digest,
    slotBSize: u32, slotBCrc32: u32, slotBSha256: Digest,
    lastBootResult: u32, lastBootSourceSlot: u32, lastBootSize: u32, lastBootCrc32: u32,
    metadataCrc32: u32)

  datatype Extension = Extension(
    faultInjectionFlags: u32, copyTxnState: u32, copySourceSlot: u32, copyDestinationSlot: u32,
    copySize: u32, copyCrc32: u32, copyWritten: u32, copyAttempts: u32, copyLastError: u32,
    metadataExtCrc32: u32)

  datatype AbPart = AbPart(
    bootMode: u32, previousSlot: u32, bootGeneration: u32, bootCapabilities: u32,
    metadataAbCrc32: u32)

  /** A record; each part ends in the checksum that covers it. */
  datatype Metadata = Metadata(core: Core, ext: Extension, ab: AbPart)

  /** The checksum routine, as a function of the bytes. */
  type Crc = seq<byte> -> u32

  // ----- bytes of a record -----

  const CORE_SIZE := 132
  const EXT_SIZE := 40
  const AB_SIZE := 20
  const RECORD_SIZE := 192

  function EncodeCore(c: Core): (b: seq<byte>)
    ensures |b| == CORE_SIZE
  {
    Words([c.magic, c.version, c.sequence, c.activeSlot, c.pendingSlot, c.confirmedSlot, c.bootAttempts,
           c.rollbackCount, c.slotASize, c.slotACrc32])
    + c.slotASha256
    + Words([c.slotBSize, c.slotBCrc32])
    + c.slotBSha256
    + Words([c.lastBootResult, c.lastBootSourceSlot, c.lastBootSize, c.lastBootCrc32, c.metadataCrc32])
  }

  function DecodeCore(b: seq<byte>): Core
    requires |b| == CORE_SIZE
  {
    var w := ParseWords(b[..40], 10);
    var s := ParseWords(b[72..80], 2);
    var t := ParseWords(b[112..], 5);
    Core(w[0], w[1], w[2], w[3], w[4], w[5], w[6], w[7], w[8], w[9], b[40..72], s[0], s[1], b[80..112],
         t[0], t[1], t[2], t[3], t[4])
  }

  function EncodeExt(e: Extension): (b: seq<byte>)
    ensures |b| == EXT_SIZE
  {
    Words([e.faultInjectionFlags, e.copyTxnState, e.copySourceSlot, e.copyDestinationSlot, e.copySize, e.copyCrc32,
           e.copyWritten, e.copyAttempts, e.copyLastError, e.metadataExtCrc32])
  }

  function DecodeExt(b: seq<byte>): Extension
    requires |b| == EXT_SIZE
  {
    var w := ParseWords(b, 10);
    Extension(w[0], w[1], w[2], w[3], w[4], w[5], w[6], w[7], w[8], w[9])
  }

  function EncodeAb(a: AbPart): (b: seq<byte>)
    ensures |b| == AB_SIZE
  {
    Words([a.bootMode, a.previousSlot, a.bootGeneration, a.bootCapabilities, a.metadataAbCrc32])
  }

  function DecodeAb(b: seq<byte>): AbPart
    requires |b| == AB_SIZE
  {
    var w := ParseWords(b, 5);
    AbPart(w[0], w[1], w[2], w[3], w[4])
  }

  function Encode(m: Metadata): (b: seq<byte>)
    ensures |b| == RECORD_SIZE
  {
    EncodeCore(m.core) + EncodeExt(m.ext) + EncodeAb(m.ab)
  }

  function Decode(b: seq<byte>): Metadata
    requires |b| == RECORD_SIZE
  {
    Metadata(DecodeCore(b[..132]), DecodeExt(b[132..172]), DecodeAb(b[172..]))
  }

  lemma CoreRoundTrip(c: Core)
    ensures DecodeCore(EncodeCore(c)) == c
  {
    var w := [c.magic, c.version, c.sequence, c.activeSlot, c.pendingSlot, c.confirmedSlot, c.bootAttempts,
              c.rollbackCount, c.slotASize, c.slotACrc32];
    var s := [c.slotBSize, c.slotBCrc32];
    var t := [c.lastBootResult, c.lastBootSourceSlot, c.lastBootSize, c.lastBootCrc32, c.metadataCrc32];
    WordsRoundTrip(w);
    WordsRoundTrip(s);
    WordsRoundTrip(t);
    var b := EncodeCore(c);
    FiveParts(Words(w), c.slotASha256, Words(s), c.slotBSha256, Words(t));
    assert b[..40] == Words(w) && b[40..72] == c.slotASha256 && b[72..80] == Words(s);
    assert b[80..112] == c.slotBSha256 && b[112..] == Words(t);
  }

  lemma FiveParts(p: seq<byte>, q: seq<byte>, r: seq<byte>, s: seq<byte>, t: seq<byte>)
    requires |p| == 40 && |q| == 32 && |r| == 8 && |s| == 32
    ensures var b := p + q + r + s + t;
            b[..40] == p && b[40..72] == q && b[72..80] == r && b[80..112] == s && b[112..] == t
  {
  }

  /** A record is recovered from its own bytes. */
  lemma RecordRoundTrip(m: Metadata)
    ensures Decode(Encode(m)) == m
  {
    var b := Encode(m);
    assert b[..132] == EncodeCore(m.core) && b[132..172] == EncodeExt(m.ext) && b[172..] == EncodeAb(m.ab);
    CoreRoundTrip(m.core);
    WordsRoundTrip([m.ext.faultInjectionFlags, m.ext.copyTxnState, m.ext.copySourceSlot, m.ext.copyDestinationSlot,
                    m.ext.copySize, m.ext.copyCrc32, m.ext.copyWritten, m.ext.copyAttempts, m.ext.copyLastError,
                    m.ext.metadataExtCrc32]);
    WordsRoundTrip([m.ab.bootMode, m.ab.previousSlot, m.ab.bootGeneration, m.ab.bootCapabilities, m.ab.metadataAbCrc32]);
  }

  // ----- checksums and validity -----

  function CoreCrc(crc: Crc, c: Core): u32 { crc(EncodeCore(c.(metadataCrc32 := 0))) }

  function ExtCrc(crc: Crc, e: Extension): u32 { crc(EncodeExt(e.(metadataExtCrc32 := 0))) }

  function AbCrc(crc: Crc, a: AbPart): u32 { crc(EncodeAb(a.(metadataAbCrc32 := 0))) }

  /** Every part given its own checksum. */
  function UpdateCrc(crc: Crc, m: Metadata): Metadata {
    Metadata(m.core.(metadataCrc32 := CoreCrc(crc, m.core)),
             m.ext.(metadataExtCrc32 := ExtCrc(crc, m.ext)),
             m.ab.(metadataAbCrc32 := AbCrc(crc, m.ab)))
  }

  predicate Blank(v: u32) { v == 0 || v == 0xFFFF_FFFF }

  predicate TxnStateValid(state: u32) { state <= TXN_FAILED }
  predicate BootModeValid(mode: u32) { mode <= MODE_DIRECT_AB }
  predicate SlotOrNoneValid(slot: u32) { slot == SLOT_NONE || slot == SLOT_A || slot == SLOT_B }
  predicate SlotValid(slot: u32) { slot == SLOT_A || slot == SLOT_B }

  /** Every byte of the word is 0x00 or 0xFF. */
  predicate BlankBytes(v: u32) {
    var b := Le32(v);
    (b[0] == 0 || b[0] == 255) && (b[1] == 0 || b[1] == 255) && (b[2] == 0 || b[2] == 255) && (b[3] == 0 || b[3] == 255)
  }

  predicate LegacyTailEmpty(e: Extension) {
    && BlankBytes(e.copyTxnState) && BlankBytes(e.copySourceSlot) && BlankBytes(e.copyDestinationSlot) && BlankBytes(e.copySize)
    && BlankBytes(e.copyCrc32) && BlankBytes(e.copyWritten) && BlankBytes(e.copyAttempts) && BlankBytes(e.copyLastError)
    && BlankBytes(e.metadataExtCrc32)
  }

  predicate IsValid(crc: Crc, m: Metadata) {
    if m.core.magic != METADATA_MAGIC then false
    else if m.core.version != METADATA_VERSION then false
    else if CoreCrc(crc, m.core) != m.core.metadataCrc32 then false
    else if Blank(m.ext.metadataExtCrc32) then LegacyTailEmpty(m.ext)
    else if !TxnStateValid(m.ext.copyTxnState) then false
    else if ExtCrc(crc, m.ext) != m.ext.metadataExtCrc32 then false
    else if Blank(m.ab.metadataAbCrc32) then true
    else if !BootModeValid(m.ab.bootMode) || !SlotOrNoneValid(m.ab.previousSlot) then false
    else AbCrc(crc, m.ab) == m.ab.metadataAbCrc32
  }

  predicate NeedsUpgrade(m: Metadata) {
    !(m.core.version == METADATA_VERSION && !Blank(m.ext.metadataExtCrc32) && !Blank(m.ab.metadataAbCrc32))
  }

  /** The fields every reader insists on. */
  predicate WellShaped(m: Metadata) {
    && m.core.magic == METADATA_MAGIC
    && m.core.version == METADATA_VERSION
    && TxnStateValid(m.ext.copyTxnState)
    && BootModeValid(m.ab.bootMode)
    && SlotOrNoneValid(m.ab.previousSlot)
  }

  /** Neither extension checksum happens to look like an unwritten field. */
  predicate Distinct(crc: Crc, m: Metadata) {
    !Blank(ExtCrc(crc, m.ext)) && !Blank(AbCrc(crc, m.ab))
  }

  predicate Sealed(crc: Crc, m: Metadata) { UpdateCrc(crc, m) == m }

  lemma SealingIsIdempotent(crc: Crc, m: Metadata)
    ensures Sealed(crc, UpdateCrc(crc, m))
  {
    var s := UpdateCrc(crc, m);
    assert s.core.(metadataCrc32 := 0) == m.core.(metadataCrc32 := 0);
    assert s.ext.(metadataExtCrc32 := 0) == m.ext.(metadataExtCrc32 := 0);
    assert s.ab.(metadataAbCrc32 := 0) == m.ab.(metadataAbCrc32 := 0);
  }

  /** A sealed record is accepted as it stands, with no upgrade, exactly when it is well shaped and its
      checksums do not collide with the two values that mark an unwritten field. */
  lemma SealedIsAcceptedIff(crc: Crc, m: Metadata)
    requires Sealed(crc, m)
    ensures IsValid(crc, m) && !NeedsUpgrade(m) <==> WellShaped(m) && Distinct(crc, m)
  {
  }

  // ----- operations -----

  function ClearCopy(e: Extension): Extension {
    e.(copyTxnState := TXN_NONE, copySourceSlot := SLOT_NONE, copyDestinationSlot := SLOT_NONE, copySize := 0,
       copyCrc32 := 0, copyWritten := 0, copyAttempts := 0, copyLastError := 0)
  }

  function ExtensionDefaults(e: Extension): Extension {
    ClearCopy(e).(faultInjectionFlags := 0, metadataExtCrc32 := 0)
  }

  const AB_DEFAULTS := AbPart(MODE_COPY_TO_ACTIVE, SLOT_NONE, 0, CAP_COPY_TO_ACTIVE, 0)

  function ZeroDigest(): Digest { Fill(0, 32) }

  function DefaultMetadata(crc: Crc): Metadata {
    UpdateCrc(crc, Metadata(
      Core(METADATA_MAGIC, METADATA_VERSION, 0, SLOT_A, SLOT_NONE, SLOT_A, 0, 0, 0, 0, ZeroDigest(), 0, 0, ZeroDigest(),
           RESULT_NONE, 0, 0, 0, 0),
      Extension(0, 0, 0, 0, 0, 0, 0, 0, 0, 0),
      AB_DEFAULTS))
  }

  function UpgradeIfNeeded(crc: Crc, m: Metadata): Metadata {
    if !NeedsUpgrade(m) then m
    else
      var c := m.core.(version := METADATA_VERSION, sequence := Inc(m.core.sequence),
                       lastBootSourceSlot := if m.core.lastBootSourceSlot > SLOT_B then SLOT_NONE else m.core.lastBootSourceSlot);
      UpdateCrc(crc, if Blank(m.ext.metadataExtCrc32) then Metadata(c, ExtensionDefaults(m.ext), AB_DEFAULTS)
                     else Metadata(c, m.ext, AB_DEFAULTS))
  }

  /** The record with its sequence raised by one and its checksums renewed: how every operation ends. */
  function Committed(crc: Crc, m: Metadata): Metadata {
    UpdateCrc(crc, m.(core := m.core.(sequence := Inc(m.core.sequence))))
  }

  function SlotSize(m: Metadata, slot: u32): u32 {
    if slot == SLOT_A then m.core.slotASize else if slot == SLOT_B then m.core.slotBSize else 0
  }

  function SlotCrc32(m: Metadata, slot: u32): u32 {
    if slot == SLOT_A then m.core.slotACrc32 else if slot == SLOT_B then m.core.slotBCrc32 else 0
  }

  function MarkPending(crc: Crc, m: Metadata, slot: u32, size: u32, imageCrc: u32): Option<Metadata> {
    if size == 0 || !SlotValid(slot) then None
    else
      var c := m.core.(pendingSlot := slot, bootAttempts := 0, lastBootResult := RESULT_NONE, lastBootSourceSlot := slot,
                       lastBootSize := size, lastBootCrc32 := imageCrc);
      Some(Committed(crc, m.(core := if slot == SLOT_A then c.(slotASize := size, slotACrc32 := imageCrc)
                                     else c.(slotBSize := size, slotBCrc32 := imageCrc))))
  }

  predicate CanConfirmActive(m: Metadata) {
    SlotValid(m.core.activeSlot) && m.core.pendingSlot == SLOT_NONE && m.core.lastBootResult == RESULT_APPLIED
  }

  function ConfirmActive(crc: Crc, m: Metadata): Option<Metadata> {
    if !CanConfirmActive(m) then None
    else
      Some(Committed(crc, m.(core := m.core.(
        confirmedSlot := m.core.activeSlot, pendingSlot := SLOT_NONE, bootAttempts := 0, lastBootResult := RESULT_APPLIED,
        lastBootSourceSlot := m.core.activeSlot,
        lastBootSize := if m.core.activeSlot == SLOT_A then m.core.slotASize else m.core.slotBSize,
        lastBootCrc32 := if m.core.activeSlot == SLOT_A then m.core.slotACrc32 else m.core.slotBCrc32))))
  }

  function SetBootMode(crc: Crc, m: Metadata, mode: u32): Option<Metadata> {
    if !BootModeValid(mode) then None
    else
      Some(Committed(crc, Metadata(
        m.core.(pendingSlot := SLOT_NONE, bootAttempts := 0),
        ClearCopy(m.ext),
        m.ab.(bootMode := mode, previousSlot := SLOT_NONE, bootGeneration := 0,
              bootCapabilities := if mode == MODE_DIRECT_AB then CAP_BOTH else CAP_COPY_TO_ACTIVE))))
  }

  function SetFaultInjection(crc: Crc, m: Metadata, flags: u32): Option<Metadata> {
    Some(Committed(crc, m.(ext := m.ext.(faultInjectionFlags := flags))))
  }

  function BeginCopy(crc: Crc, m: Metadata, source: u32, destination: u32, size: u32, imageCrc: u32): Option<Metadata> {
    if source == SLOT_NONE || destination == SLOT_NONE || source == destination || size == 0 then None
    else
      Some(Committed(crc, m.(ext := m.ext.(
        copyTxnState := TXN_STARTED, copySourceSlot := source, copyDestinationSlot := destination, copySize := size,
        copyCrc32 := imageCrc, copyWritten := 0, copyAttempts := Inc(m.ext.copyAttempts), copyLastError := 0))))
  }

  function UpdateCopy(crc: Crc, m: Metadata, state: u32, written: u32, lastError: u32): Option<Metadata> {
    if !TxnStateValid(state) || state == TXN_NONE || m.ext.copyTxnState == TXN_NONE || written > m.ext.copySize then None
    else
      Some(Committed(crc, m.(ext := m.ext.(copyTxnState := state, copyWritten := written, copyLastError := lastError))))
  }

  function FinishCopy(crc: Crc, m: Metadata): Option<Metadata> {
    if m.ext.copyTxnState == TXN_NONE then None
    else Some(Committed(crc, m.(ext := m.ext.(copyTxnState := TXN_DONE, copyWritten := m.ext.copySize, copyLastError := 0))))
  }

  function FailCopy(crc: Crc, m: Metadata, lastError: u32): Option<Metadata> {
    if m.ext.copyTxnState == TXN_NONE then None
    else Some(Committed(crc, m.(ext := m.ext.(copyTxnState := TXN_FAILED, copyLastError := lastError))))
  }

  function ClearCopyTransaction(crc: Crc, m: Metadata): Option<Metadata> {
    Some(Committed(crc, m.(ext := ClearCopy(m.ext))))
  }

  function RecordBootResult(crc: Crc, m: Metadata, result: u32, source: u32, clearPending: bool): Option<Metadata> {
    if !SlotOrNoneValid(source) then None
    else
      var c := m.core.(lastBootResult := result, lastBootSourceSlot := source, lastBootSize := SlotSize(m, source),
                       lastBootCrc32 := SlotCrc32(m, source));
      var d := if !clearPending then c
               else c.(pendingSlot := SLOT_NONE, bootAttempts := 0,
                       rollbackCount := if result != RESULT_APPLIED && result != RESULT_NO_PENDING
                                        then Inc(c.rollbackCount) else c.rollbackCount);
      Some(Committed(crc, m.(core := d)))
  }

  function ApplyCopyToActiveDone(crc: Crc, m: Metadata, staging: u32, active: u32): Option<Metadata> {
    if !SlotValid(staging) || !SlotValid(active) || SlotSize(m, staging) == 0 then None
    else
      var c := m.core.(activeSlot := active, confirmedSlot := active, pendingSlot := SLOT_NONE, bootAttempts := 0);
      var d := if active == SLOT_A then c.(slotASize := SlotSize(m, staging), slotACrc32 := SlotCrc32(m, staging))
               else c.(slotBSize := SlotSize(m, staging), slotBCrc32 := SlotCrc32(m, staging));
      RecordBootResult(crc, m.(core := d, ext := ClearCopy(m.ext)), RESULT_APPLIED, staging, false)
  }

  function ApplyDirectAbPending(crc: Crc, m: Metadata, pending: u32): Option<Metadata> {
    if !SlotValid(pending) || !SlotValid(m.core.activeSlot) || m.core.pendingSlot != pending then None
    else
      RecordBootResult(crc, m.(
        core := m.core.(activeSlot := m.core.pendingSlot, pendingSlot := SLOT_NONE, bootAttempts := Inc(m.core.bootAttempts)),
        ab := m.ab.(previousSlot := m.core.activeSlot, bootGeneration := Inc(m.ab.bootGeneration))),
        RESULT_APPLIED, pending, false)
  }

  function RollbackDirectAb(crc: Crc, m: Metadata, reason: u32, failed: u32, rollback: u32): Option<Metadata> {
    if !SlotValid(failed) || !SlotValid(rollback) then None
    else
      Some(Committed(crc, m.(
        core := m.core.(activeSlot := rollback, pendingSlot := SLOT_NONE, bootAttempts := 0,
                        rollbackCount := Inc(m.core.rollbackCount), lastBootResult := reason, lastBootSourceSlot := failed,
                        lastBootSize := SlotSize(m, failed), lastBootCrc32 := SlotCrc32(m, failed)),
        ab := m.ab.(previousSlot := failed))))
  }

  function IncrementBootAttempts(crc: Crc, m: Metadata): Option<Metadata> {
    Some(Committed(crc, m.(core := m.core.(bootAttempts := Inc(m.core.bootAttempts)))))
  }

  /** What the operations have in common: one sequence step, fresh checksums, and a shape readers accept. */
  ghost predicate Follows(crc: Crc, m: Metadata, next: Metadata) {
    && next.core.sequence == Inc(m.core.sequence)
    && Sealed(crc, next)
    && (WellShaped(m) ==> WellShaped(next))
  }

  lemma CommittedFollows(crc: Crc, base: Metadata, m: Metadata)
    requires m.core.sequence == base.core.sequence
    requires WellShaped(base) ==> WellShaped(m)
    ensures Follows(crc, base, Committed(crc, m))
  {
    SealingIsIdempotent(crc, m.(core := m.core.(sequence := Inc(m.core.sequence))));
  }
}
