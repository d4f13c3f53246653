/** The storage manager: card operations that share the SPI bus through the arbiter, and the job slot that runs them.
    Whether a card call succeeds is arbitrary. Other tasks act before every acquire and release and before the result of
    an operation is tested: they use the arbiter, and call the storage manager themselves. */
module Storage {
  import opened Outcomes
  import opened Bytes
  import Bits
  import A = Arbiter
  import opened Card
  import opened Jobs
  import opened Moments
  import opened Path
  import Trace

  // ----- values -----

  datatype CardState = Uninitialized | Idling | NoCard | NoFilesystem | CardReady | PathDenied | PathError

  const ERROR_CARD: u32 := 2
  const ERROR_NO_FS: u32 := 3
  const ERROR_PATH: u32 := 4
  const ERROR_PATH_DENIED: u32 := 5
  const ERROR_WRITE_FAILED: u32 := 6
  const ERROR_RENAME_FAILED: u32 := 7
  const ERROR_SEQUENCE: u32 := 8
  const MAX_SEQUENCE := 999999
  const FILE_READ_MAX: u32 := 128

  datatype ManifestStatus =
    | ManifestUnknown | ManifestOk | ManifestNotFound | ManifestIoError | ManifestInvalid | ManifestSchema
    | ManifestProduct | ManifestHardware | ManifestMissing | ManifestDenied

  /** The number a manifest status is reported under. */
  function ManifestCode(status: ManifestStatus): u32 {
    match status
    case ManifestUnknown => 0 case ManifestOk => 1 case ManifestNotFound => 2 case ManifestInvalid => 3 case ManifestSchema => 4
    case ManifestProduct => 5 case ManifestHardware => 6 case ManifestMissing => 7 case ManifestIoError => 8 case ManifestDenied => 9
  }

  /** The last file of a kind that was written, or why it was not. */
  datatype Written = Written(id: u32, path: CString, error: u32)

  /** What the outside sees of the current job. */
  datatype Published = Published(id: u32, kind: Kind, phase: Phase, pathHash: u32, total: u32, done: u32, error: u32, path: CString)

  datatype Vector = Vector(
    state: CardState, cardPresent: bool, fsMounted: bool, cardOk: bool, fatfsAvailable: bool, error: u32,
    manifest: ManifestStatus, required: u32, missing: u32, snapshot: Written, trace: Written, report: Written, job: Published)

  /** The job and the last files are told of as before. */
  predicate SameRecords(v: Vector, w: Vector) {
    w.job == v.job && w.snapshot == v.snapshot && w.trace == v.trace && w.report == v.report
  }

  predicate SameButSnapshot(v: Vector, w: Vector) { w.job == v.job && w.trace == v.trace && w.report == v.report }

  predicate SameButTrace(v: Vector, w: Vector) { w.job == v.job && w.snapshot == v.snapshot && w.report == v.report }

  predicate SameButReport(v: Vector, w: Vector) { w.job == v.job && w.snapshot == v.snapshot && w.trace == v.trace }

  /** What is told about a file: a number and no error once it is written, and otherwise no number and an error, unless a
      competing call has wiped that out. If none wrote the storage error last, that says the same, and the card is ready for
      a file that was written. */
  ghost predicate Told(w: Written, v: Vector, ok: bool, overtaken: bool) {
    && (ok ==> w.id > 0 && w.error == ERROR_NONE)
    && (!ok ==> w.id == 0 && (w.error != ERROR_NONE || overtaken))
    && (!overtaken ==> w.error == v.error && (ok ==> v.state == CardReady && v.fsMounted))
  }

  lemma WhyNot(w: Written, v: Vector, ok: bool, overtaken: bool)
    requires Told(w, v, ok, overtaken)
    ensures !ok && w.error == ERROR_NONE ==> overtaken
  {
  }

  /** The error of the first step of an evidence job that failed. */
  predicate FirstError(c: Control, v: Vector, error: u32) {
    && (!c.ok0 && v.snapshot.error != ERROR_NONE ==> error == v.snapshot.error)
    && (c.ok0 && !c.ok1 && v.trace.error != ERROR_NONE ==> error == v.trace.error)
    && (c.ok0 && c.ok1 && v.report.error != ERROR_NONE ==> error == v.report.error)
  }

  function EvidenceError(c: Control, v: Vector): u32 {
    if !c.ok0 && v.snapshot.error != ERROR_NONE then v.snapshot.error
    else if !c.ok1 && v.trace.error != ERROR_NONE then v.trace.error
    else if !c.ok2 && v.report.error != ERROR_NONE then v.report.error
    else if !(c.ok0 && c.ok1 && c.ok2) then v.error else ERROR_NONE
  }

  lemma EvidenceErrorIsFirst(c: Control, v: Vector)
    ensures if c.ok0 && c.ok1 && c.ok2 then EvidenceError(c, v) == ERROR_NONE else FirstError(c, v, EvidenceError(c, v))
  {
  }

  /** It depends on the flags of the job and on the records of the files only. */
  lemma FirstErrorOf(c: Control, v: Vector, d: Control, w: Vector, error: u32)
    requires FirstError(c, v, error) && d == c.(phase := d.phase) && w == v.(job := w.job)
    ensures FirstError(d, w, error)
  {
  }

  /** What a competing call may change: the storage error and what is known of the card. */
  predicate Disturbed(v: Vector, w: Vector) {
    && w == v.(state := w.state, cardPresent := w.cardPresent, fsMounted := w.fsMounted, cardOk := w.cardOk,
               fatfsAvailable := w.fatfsAvailable, error := w.error)
    && (v.state != Uninitialized ==> w.state != Uninitialized)
  }

  function WriteError(status: FsStatus): u32 { if status == FsRenameFailed then ERROR_RENAME_FAILED else ERROR_WRITE_FAILED }

  datatype Job = Job(
    control: Control, error: u32, size: u32, isDir: bool, path: CString, pathHash: u32, argument: CString,
    offset: u32, length: u32, limit: u32, bytes: seq<byte>)

  /** What a lookup found: the size it reports, and the bytes it read if it was to read any. */
  datatype Found = Found(size: u32, isDir: bool, bytes: seq<byte>)

  const NOTHING := Found(0, false, [])

  /** FNV-1a over the characters of a path. */
  function PathHash(path: string): u32 {
    if path == [] then 2166136261
    else (Bits.Xor(PathHash(path[..|path| - 1]), path[|path| - 1] as int % 256) * 16777619) % WORD_LIMIT
  }

  function PublishedOf(j: Job): Published {
    Published(j.control.id, j.control.kind, j.control.phase, j.pathHash, j.size,
              if j.control.phase == Done then j.size else 0, j.error, j.path)
  }

  function FreshJob(id: u32, kind: Kind): Job {
    Job(Control(id, kind, Idle, 0, false, false, false), ERROR_NONE, 0, false, "", 0, "", 0, 0, 0, [])
  }

  /** No kind means a boot snapshot. */
  function SnapshotKindOf(kind: CString): CString { if kind == "" then "boot" else kind }

  lemma SomeKind(kind: CString)
    ensures SnapshotKindOf(kind) != ""
  {
  }

  predicate SnapshotKindValid(kind: string) { kind == "boot" || kind == "arm" || kind == "fault" || kind == "run" }

  predicate TraceKindValid(kind: string) { kind == "fault" || kind == "run" }

  // ----- names of files -----

  /** The last decimal digits of a number. */
  function Digits(n: nat, width: nat): (s: CString) {
    if width == 0 then "" else Digits(n / 10, width - 1) + [('0' as int + n % 10) as char]
  }

  function NumberedFile(directory: CString, stem: CString, n: nat, extension: CString): CString {
    directory + "/" + stem + "_" + Digits(n, 6) + extension
  }

  function TemporaryFile(directory: CString, stem: CString): CString { directory + "/" + stem + ".tmp" }

  lemma TemporaryEndsInP(path: string)
    requires Temporary(path)
    ensures path[|path| - 1] == 'p'
  {
    assert path[|path| - 4..][3] == 'p';
  }

  lemma NamesAreApart(directory: CString, stem: CString, n: nat, extension: CString)
    requires extension != "" && extension[|extension| - 1] != 'p'
    ensures !Temporary(NumberedFile(directory, stem, n, extension)) && Temporary(TemporaryFile(directory, stem))
  {
    var path, tmp := NumberedFile(directory, stem, n, extension), TemporaryFile(directory, stem);
    assert path[|path| - 1] == extension[|extension| - 1];
    if Temporary(path) { TemporaryEndsInP(path); }
    assert tmp[|tmp| - 4..] == ".tmp";
  }

  function SnapshotDirectory(kind: CString): CString { "/snapshots/" + kind }

  function TraceDirectory(kind: CString): CString { "/traces/" + kind }

  const REPORT_DIRECTORY: CString := "/reports/fault"

  const FAULT: CString := "fault"

  const PULSE_FAULT: CString := "pulse_fault"

  const JSON: CString := ".json"

  const BIN: CString := ".bin"

  const INDEX: CString := ".idx"

  const MANIFEST: CString := "/manifest.idx"

  const PACK_DIRECTORIES: seq<string> := [
    "/profile", "/profile/profiles", "/mission", "/cal", "/snapshots", "/snapshots/boot", "/snapshots/arm", "/snapshots/fault",
    "/snapshots/run", "/traces", "/traces/run", "/traces/fault", "/reports", "/reports/run", "/reports/fault",
    "/reports/acceptance", "/logs", "/update", "/update/compat", "/factory"]

  /** Each file of the system pack and the name it is written under first. */
  const PACK_FILES: seq<(string, string)> := [
    ("/profile/active.json", "/profile/active.tmp"), ("/mission/recipe.json", "/mission/recipe.tmp"),
    ("/mission/node_map.json", "/mission/node_map.tmp"), ("/cal/board_cal.json", "/cal/board_cal.tmp"),
    ("/update/RP2350_TRIG_UPDATE.pkg", "/update/RP2350_TRIG_UPDATE.tmp"), ("/manifest.json", "/manifest.tmp")]

  lemma PackNamesAreApart(i: nat)
    requires i < |PACK_FILES|
    ensures !Temporary(PACK_FILES[i].0) && Temporary(PACK_FILES[i].1)
  {
  }

  /** The first n files of the system pack are on the card. */
  ghost predicate PackPresent(files: Files, n: nat)
    requires n <= |PACK_FILES|
  {
    forall i :: 0 <= i < n ==> PACK_FILES[i].0 in files
  }

  lemma NothingPresent(files: Files)
    ensures PackPresent(files, 0)
  {
  }

  lemma PresentStays(was: Files, now: Files, n: nat)
    requires n <= |PACK_FILES| && PackPresent(was, n) && Keeps(was, now)
    ensures PackPresent(now, n)
  {
    forall i | 0 <= i < n ensures PACK_FILES[i].0 in now { PackNamesAreApart(i); }
  }

  lemma OneMorePresent(was: Files, now: Files, n: nat)
    requires n < |PACK_FILES| && PackPresent(was, n) && Keeps(was, now) && PACK_FILES[n].0 in now
    ensures PackPresent(now, n + 1)
  {
    PresentStays(was, now, n);
  }

  lemma ManifestIsApart()
    ensures !Temporary(MANIFEST) && Temporary(MANIFEST + ".tmp")
  {
    assert (MANIFEST + ".tmp")[|MANIFEST + ".tmp"| - 4..] == ".tmp";
  }

  // ----- the manager -----

  class Manager {
    const arbiter: A.ResourceArbiter
    const card: Volume
    const ring: Trace.Ring
    const crc: Trace.Crc
    var vector: Vector
    var job: Job
    var nextJobId: u32
    /** Every write of the storage error. */
    ghost var writes: seq<Write>
    /** What the current job has tried. */
    ghost var attempts: seq<Attempt>

    ghost predicate Wired()
      reads arbiter, arbiter.owners, ring, ring.slots
    {
      card.arbiter == arbiter && arbiter.Valid() && A.Good(arbiter.Value()) && ring.Valid()
    }

    /** Between operations, once the manager is initialised. */
    ghost predicate AtRest()
      reads this`vector, arbiter, arbiter.owners, ring, ring.slots
    {
      Wired() && vector.state != Uninitialized
    }

    /** The moment it is, when storage holds the bus or not. */
    ghost function At(holding: bool): Moment
      reads this`writes, arbiter`active, arbiter`calls
    {
      Moment(if holding then arbiter.active - BUS else arbiter.active, arbiter.calls, writes)
    }

    ghost predicate HasBus()
      reads arbiter`active
    {
      BUS <= arbiter.active
    }

    lemma CardIsHeld()
      requires Wired() && HasBus()
      ensures card.Held()
    {
    }

    /** The published vector agrees with the job. */
    ghost predicate Agrees()
      reads this`vector, this`job
    {
      vector.job == PublishedOf(job)
    }

    ghost function View(): Machine
      reads this`vector, this`job, this`nextJobId, this`attempts
    {
      Machine(job.control, nextJobId, vector.error == ERROR_BUSY, attempts)
    }

    constructor (arbiter: A.ResourceArbiter, card: Volume, ring: Trace.Ring, crc: Trace.Crc)
      requires arbiter.Valid() && A.Good(arbiter.Value()) && card.arbiter == arbiter && ring.Valid()
      ensures this.arbiter == arbiter && this.card == card && this.ring == ring && this.crc == crc
      ensures Steady() && View() == START
    {
      this.arbiter, this.card, this.ring, this.crc := arbiter, card, ring, crc;
      vector := Vector(Idling, false, false, false, true, ERROR_NONE, ManifestUnknown, 0, 0, Written(0, "", 0), Written(0, "", 0),
                       Written(0, "", 0), Published(0, NoJob, Idle, 0, 0, 0, 0, ""));
      job := FreshJob(0, NoJob);
      nextJobId := 1;
      writes, attempts := [], [];
    }

    // ----- the storage error and the bus -----

    method SetError(error: u32)
      modifies this`vector, this`writes
      ensures vector == old(vector).(error := error) && writes == old(writes) + [Own(error)]
    {
      vector := vector.(error := error);
      writes := writes + [Own(error)];
    }

    /** A post that finds the slot taken leaves RESOURCE_BUSY, whatever is running. */
    method TurnAway()
      modifies this`vector, this`writes
      ensures vector == old(vector).(error := ERROR_BUSY) && writes == old(writes) + [Competing(ERROR_BUSY)]
    {
      vector := vector.(error := ERROR_BUSY);
      writes := writes + [Competing(ERROR_BUSY)];
    }

    /** A command of another task that sees to the card itself, such as a probe, leaves what it finds, whatever is running:
        a probe of a ready card clears RESOURCE_BUSY, and one that is refused the bus leaves it. */
    method DirectCommand()
      modifies this`vector, this`writes
      ensures Disturbed(old(vector), vector) && writes == old(writes) + [Competing(vector.error)]
    {
      var state: CardState, present, mounted, cardOk, available: bool, error: u32 := *, *, *, *, *, *;
      vector := vector.(state := if state == Uninitialized then vector.state else state, cardPresent := present,
                        fsMounted := mounted, cardOk := cardOk, fatfsAvailable := available, error := error);
      writes := writes + [Competing(error)];
    }

    /** An acquire of either side: all or nothing. */
    method Ask(resources: A.Mask, owner: A.Owner, ghost side: A.Side) returns (ok: bool)
      requires Wired()
      modifies arbiter, arbiter.owners
      ensures Wired() && arbiter.calls == old(arbiter.calls) + [A.Asked(side, resources, ok)]
      ensures ok ==> resources !! old(arbiter.active) && arbiter.active == old(arbiter.active) + resources
      ensures !ok ==> arbiter.active == old(arbiter.active)
    {
      hide A.Good, A.Acquire;
      A.AllOrNothing(arbiter.Value(), resources, owner);
      A.AcquireKeepsGood(arbiter.Value(), resources, owner);
      ok := arbiter.AcquireOwned(resources, owner, side);
    }

    /** A release of either side: nothing but what it names, and without an owner all of that. */
    method Give(resources: A.Mask, owner: A.Owner, ghost side: A.Side)
      requires Wired()
      modifies arbiter, arbiter.owners
      ensures Wired() && arbiter.calls == old(arbiter.calls) + [A.Gave(side, old(arbiter.active) - arbiter.active)]
      ensures old(arbiter.active) - resources <= arbiter.active <= old(arbiter.active)
      ensures owner.None? ==> arbiter.active == old(arbiter.active) - resources
    {
      hide A.Good, A.Release;
      A.ReleaseKeepsGood(arbiter.Value(), resources, owner);
      A.ReleaseStaysInside(arbiter.Value(), resources, owner);
      arbiter.ReleaseOwned(resources, owner, side);
    }

    /** Other tasks acquire what they can, release what storage does not hold, post jobs that are turned away, and see to the
        card themselves. */
    method OthersAct(holding: bool, ghost from: Moment)
      requires Wired() && (holding ==> HasBus()) && Follows(from, At(holding))
      modifies this`vector, this`writes, arbiter, arbiter.owners
      ensures Wired() && (holding ==> HasBus())
      ensures Disturbed(old(vector), vector)
      ensures !Overtaken(from, At(holding)) ==> vector == old(vector)
      ensures OthersOnly(from, old(At(holding)), At(holding), old(vector.error), vector.error)
    {
      hide Wired, Follows, Refused, Overtaken, Left;
      var n: nat := *;
      while n > 0
        invariant Wired() && (holding ==> HasBus())
        invariant Disturbed(old(vector), vector) && (!Overtaken(from, At(holding)) ==> vector == old(vector))
        invariant OthersOnly(from, old(At(holding)), At(holding), old(vector.error), vector.error)
      {
        var what: nat := *;
        if what == 0 {
          OthersAcquire(holding, from);
        } else if what == 1 {
          OthersRelease(holding, from);
        } else if what == 2 {
          WriteFollows(from, At(holding), Competing(ERROR_BUSY));
          TurnAway();
        } else {
          ghost var before := At(holding);
          DirectCommand();
          WriteFollows(from, before, Competing(vector.error));
        }
        n := n - 1;
      }
    }

    method OthersAcquire(holding: bool, ghost from: Moment)
      requires Wired() && (holding ==> HasBus()) && Follows(from, At(holding))
      modifies arbiter, arbiter.owners
      ensures Wired() && (holding ==> HasBus()) && Follows(from, At(holding))
      ensures Refused(from, At(holding)) == old(Refused(from, At(holding))) && SameLast(from, old(At(holding)), At(holding))
    {
      hide Wired, Follows, Refused, Overtaken;
      var resources: A.Mask, owner: A.Owner := *, *;
      ghost var before := At(holding);
      var ok := Ask(resources, owner, A.Theirs);
      CallFollows(from, before, A.Asked(A.Theirs, resources, ok));
      assert At(holding) == Called(before, A.Asked(A.Theirs, resources, ok));
    }

    method OthersRelease(holding: bool, ghost from: Moment)
      requires Wired() && (holding ==> HasBus()) && Follows(from, At(holding))
      modifies arbiter, arbiter.owners
      ensures Wired() && (holding ==> HasBus()) && Follows(from, At(holding))
      ensures Refused(from, At(holding)) == old(Refused(from, At(holding))) && SameLast(from, old(At(holding)), At(holding))
    {
      hide Wired, Follows, Refused, Overtaken;
      var resources: A.Mask, owner: A.Owner := *, *;
      if holding && BUS * resources != {} {
        return;
      }
      ghost var before, active := At(holding), arbiter.active;
      assert forall b :: holding && b in BUS ==> b !in resources by {
        assert forall b :: b in BUS && b in resources ==> b in BUS * resources;
      }
      Give(resources, owner, A.Theirs);
      CallFollows(from, before, A.Gave(A.Theirs, active - arbiter.active));
      assert At(holding) == Called(before, A.Gave(A.Theirs, active - arbiter.active));
    }

    /** Storage asks for the bus; other tasks may have it. */
    method AcquireBus(ghost from: Moment) returns (ok: bool)
      requires Wired() && Unrefused(from, At(false))
      modifies this`vector, this`writes, arbiter, arbiter.owners
      ensures Wired() && Disturbed(old(vector), vector)
      ensures ok ==> HasBus() && Unrefused(from, At(true))
      ensures ok && old(Clear(from, At(false), vector.error)) ==> Clear(from, At(true), vector.error)
      ensures !ok ==> Follows(from, At(false)) && Refused(from, At(false))
    {
      hide Wired, Follows, Refused, Overtaken, Left;
      OthersAct(false, from);
      ghost var before := At(false);
      ok := Ask(BUS, None, A.Ours);
      CallFollows(from, before, A.Asked(A.Ours, BUS, ok));
      assert At(ok) == Called(before, A.Asked(A.Ours, BUS, ok));
    }

    method ReleaseBus(ghost from: Moment)
      requires Wired() && HasBus() && Unrefused(from, At(true))
      modifies this`vector, this`writes, arbiter, arbiter.owners
      ensures Wired() && Disturbed(old(vector), vector) && Unrefused(from, At(false))
      ensures !Overtaken(from, At(false)) ==> vector == old(vector) && !old(Overtaken(from, At(true)))
      ensures old(Clear(from, At(true), vector.error)) ==> Clear(from, At(false), vector.error)
    {
      hide Wired, Follows, Refused, Overtaken, Left;
      OthersAct(true, from);
      ghost var before, active := At(true), arbiter.active;
      Give(BUS, None, A.Ours);
      CallFollows(from, before, A.Gave(A.Ours, active - arbiter.active));
      assert At(false) == Called(before, A.Gave(A.Ours, active - arbiter.active));
    }

    /** Storage writes the error of its own work, with the bus or without it. */
    method Report(error: u32, ghost holding: bool, ghost from: Moment)
      requires Unrefused(from, At(holding)) && error != ERROR_BUSY
      modifies this`vector, this`writes
      ensures vector == old(vector).(error := error)
      ensures Unrefused(from, At(holding)) && Clear(from, At(holding), vector.error) && !Overtaken(from, At(holding))
    {
      hide Follows, Refused, Overtaken, Left;
      WriteFollows(from, At(holding), Own(error));
      SetError(error);
    }

    /** Storage writes that it was refused the bus. */
    method ReportBusy(ghost from: Moment)
      requires Follows(from, At(false)) && Refused(from, At(false))
      modifies this`vector, this`writes
      ensures vector == old(vector).(error := ERROR_BUSY) && Honest(from, At(false), false, vector.error)
      ensures !Overtaken(from, At(false))
    {
      hide Follows, Refused, Overtaken, Left;
      WriteFollows(from, At(false), Own(ERROR_BUSY));
      SetError(ERROR_BUSY);
    }

    /** Give the bus back and report an error. */
    method Fail(error: u32, ghost from: Moment)
      requires Wired() && HasBus() && Unrefused(from, At(true)) && vector.state != Uninitialized && error != ERROR_BUSY
      modifies this`vector, this`writes, arbiter, arbiter.owners
      ensures AtRest() && Disturbed(old(vector), vector) && vector.error == error
      ensures Unrefused(from, At(false)) && Clear(from, At(false), vector.error) && !Overtaken(from, At(false))
    {
      hide Wired, Unrefused, Clear;
      ReleaseBus(from);
      Report(error, false, from);
    }

    // ----- operations on the card -----
    // Each is its work, then a moment in which others may still act before the caller looks at the storage error.

    /** The card is ready, or is made so. */
    method ProbeCard(ghost from: Moment) returns (ok: bool)
      requires AtRest() && from == At(false)
      modifies this`vector, this`writes, arbiter, arbiter.owners
      ensures AtRest() && Over(from, At(false), ok, vector.error)
      ensures ok ==> Unrefused(from, At(false))
      ensures SameRecords(old(vector), vector) && (!ok && vector.error == ERROR_NONE ==> Overtaken(from, At(false)))
    {
      hide Wired, Follows, Refused, Overtaken, Honest;
      FollowsItself(from);
      if vector.state == CardReady && vector.cardPresent && vector.fsMounted && vector.cardOk {
        if vector.error == ERROR_BUSY {
          Report(ERROR_NONE, false, from);
        }
        return true;
      }
      var granted := AcquireBus(from);
      if !granted {
        ReportBusy(from);
        return false;
      }
      ok := Inspect(from);
    }

    /** What the card says of itself, and whether it can be mounted. */
    method Inspect(ghost from: Moment) returns (ok: bool)
      requires Wired() && HasBus() && Unrefused(from, At(true)) && vector.state != Uninitialized
      modifies this`vector, this`writes, arbiter, arbiter.owners
      ensures AtRest() && Clear(from, At(false), vector.error) && Unrefused(from, At(false))
      ensures SameRecords(old(vector), vector) && (!ok && vector.error == ERROR_NONE ==> Overtaken(from, At(false)))
    {
      hide Wired, Unrefused, Clear;
      var cardOk, present, available: bool := *, *, *;
      vector := vector.(cardOk := cardOk, cardPresent := present, fatfsAvailable := available, fsMounted := false);
      if !cardOk {
        Condemn(NoCard, ERROR_CARD, from);
        return false;
      }
      if !available {
        Condemn(NoFilesystem, ERROR_NO_FS, from);
        return true;
      }
      var mounted: bool := *;
      ReleaseBus(from);
      vector := vector.(fsMounted := mounted, state := if mounted then CardReady else NoFilesystem);
      Report(if mounted then ERROR_NONE else ERROR_NO_FS, false, from);
      ok := mounted;
    }

    /** The card cannot be used: its state and the error are told before the bus is given back. */
    method Condemn(state: CardState, error: u32, ghost from: Moment)
      requires state != Uninitialized && error != ERROR_NONE && error != ERROR_BUSY
      requires Wired() && HasBus() && Unrefused(from, At(true))
      modifies this`vector, this`writes, arbiter, arbiter.owners
      ensures AtRest() && Clear(from, At(false), vector.error) && Unrefused(from, At(false))
      ensures SameRecords(old(vector), vector)
      ensures !Overtaken(from, At(false)) ==> vector.error == error
    {
      hide Wired, Unrefused, Clear;
      vector := vector.(state := state);
      Report(error, true, from);
      ReleaseBus(from);
    }

    method Probe() returns (ok: bool)
      requires AtRest()
      modifies this`vector, this`writes, arbiter, arbiter.owners
      ensures AtRest() && Honest(old(At(false)), At(false), ok, vector.error)
      ensures SameRecords(old(vector), vector) && (!ok && vector.error == ERROR_NONE ==> Overtaken(old(At(false)), At(false)))
    {
      hide Wired, Follows, Refused, Overtaken;
      ghost var from := At(false);
      ok := ProbeCard(from);
      OthersAct(false, from);
    }

    /** Probe, then take the bus: how every other operation starts. */
    method ProbeAndAcquire(ghost from: Moment) returns (ok: bool)
      requires AtRest() && from == At(false)
      modifies this`vector, this`writes, arbiter, arbiter.owners
      ensures Wired() && vector.state != Uninitialized
      ensures SameRecords(old(vector), vector) && (!ok && vector.error == ERROR_NONE ==> Overtaken(from, At(false)))
      ensures ok ==> HasBus() && Clear(from, At(true), vector.error)
      ensures ok ==> Unrefused(from, At(true))
      ensures !ok ==> Over(from, At(false), false, vector.error)
    {
      hide Wired, Unrefused, Clear, Honest, Follows, Refused;
      ok := ProbeCard(from);
      if !ok {
        return;
      }
      ok := AcquireBus(from);
      if !ok {
        ReportBusy(from);
      }
    }

    /** How an operation that began at `from` has gone. */
    ghost function AttemptSince(op: Op, from: Moment, ok: bool): Attempt
      reads this`vector, this`writes, arbiter`active, arbiter`calls
    {
      Attempt(op, Refused(from, At(false)), vector.error == ERROR_BUSY, ok)
    }

    ghost method Note(op: Op, from: Moment, ok: bool)
      modifies this`attempts
      ensures attempts == old(attempts) + [AttemptSince(op, from, ok)]
    {
      attempts := attempts + [AttemptSince(op, from, ok)];
    }

    /** What a lookup reports is so: of a file its size, or the bytes of the range; of a directory how many entries fit a page. */
    ghost predicate IsThere(op: Op, path: string, offset: u32, length: u32, found: Found)
      reads card`files, card`directories
    {
      match op
      case InfoOp => if found.isDir then path in card.directories else path in card.files && found.size == |card.files[path]| % WORD_LIMIT
      case ReadOp =>
        !found.isDir && path in card.files && found.bytes == Range(card.files[path], offset, length) && found.size == |found.bytes|
      case CatalogOp => found.isDir && path in card.directories && found.size <= length
      case _ => false
    }

    method AskCard(op: Op, path: string, offset: u32, length: u32) returns (status: FsStatus, found: Found)
      requires card.Held() && op in {InfoOp, ReadOp, CatalogOp}
      ensures status == FsOk ==> IsThere(op, path, offset, length, found)
    {
      found := NOTHING;
      match op {
        case InfoOp =>
          var isDir: bool, size: u32;
          status, isDir, size := card.FileInfo(path);
          found := Found(size, isDir, []);
        case ReadOp =>
          var bytes: seq<byte>;
          status, bytes := card.ReadRange(path, offset, length);
          if status == FsOk { found := Found(|bytes|, false, bytes); }
        case CatalogOp =>
          var count: u32;
          status, count := card.ListPage(path, offset, length);
          found := Found(count, true, []);
      }
    }

    /** A file or directory is looked up under the bus: the shape shared by file_info, read_file_range and catalog_page. */
    method FindUnderBus(op: Op, path: Option<CString>, offset: u32, length: u32, ghost from: Moment)
      returns (ok: bool, normalized: CString, found: Found)
      requires AtRest() && from == At(false) && op in {InfoOp, ReadOp, CatalogOp}
      modifies this`vector, this`writes, arbiter, arbiter.owners
      ensures AtRest() && Over(from, At(false), ok, vector.error)
      ensures SameRecords(old(vector), vector) && (!ok && vector.error == ERROR_NONE ==> Overtaken(from, At(false)))
      ensures ok ==> Some(normalized) == match path case Some(p) => Normalized(p, MAX_PATH_LEN + 1) case None => None
      ensures ok ==> IsThere(op, normalized, offset, length, found)
    {
      hide Wired, Normalized, Unrefused, Clear, Honest, IsThere;
      normalized, found := "", NOTHING;
      var target := NormalizePath(path, MAX_PATH_LEN + 1);
      if target.None? {
        FollowsItself(from);
        vector := vector.(state := PathDenied);
        Report(ERROR_PATH_DENIED, false, from);
        return false, "", NOTHING;
      }
      var ready := ProbeAndAcquire(from);
      if !ready {
        return false, "", NOTHING;
      }
      CardIsHeld();
      var status: FsStatus;
      status, found := AskCard(op, target.value, offset, length);
      ReleaseBus(from);
      if status != FsOk {
        vector := if status == FsNotFound then vector.(fsMounted := true, state := PathError)
                  else vector.(fsMounted := false, state := NoFilesystem);
        Report(if status == FsNotFound then ERROR_PATH else ERROR_NO_FS, false, from);
        return false, "", NOTHING;
      }
      vector := vector.(fsMounted := true, state := CardReady);
      Report(ERROR_NONE, false, from);
      return true, target.value, found;
    }

    method LookUp(op: Op, path: Option<CString>, offset: u32, length: u32) returns (ok: bool, normalized: CString, found: Found)
      requires AtRest() && op in {InfoOp, ReadOp, CatalogOp}
      modifies this`vector, this`writes, this`attempts, arbiter, arbiter.owners
      ensures AtRest() && Honest(old(At(false)), At(false), ok, vector.error)
      ensures attempts == old(attempts) + [AttemptSince(op, old(At(false)), ok)]
      ensures SameRecords(old(vector), vector) && (!ok && vector.error == ERROR_NONE ==> Overtaken(old(At(false)), At(false)))
      ensures ok ==> Some(normalized) == match path case Some(p) => Normalized(p, MAX_PATH_LEN + 1) case None => None
      ensures ok ==> IsThere(op, normalized, offset, length, found)
    {
      hide Wired, Normalized, Follows, Refused, Overtaken, IsThere;
      ghost var from := At(false);
      ok, normalized, found := FindUnderBus(op, path, offset, length, from);
      OthersAct(false, from);
      Note(op, from, ok);
    }

    method WriteText(path: string, temporary: string, ghost from: Moment) returns (status: FsStatus)
      requires Temporary(temporary) && !Temporary(path)
      requires Wired() && HasBus() && Unrefused(from, At(true))
      modifies this`vector, this`writes, card`files
      ensures Keeps(old(card.files), card.files) && (status == FsOk ==> path in card.files)
      ensures vector == old(vector).(error := vector.error) && Unrefused(from, At(true))
      ensures status != FsOk ==> Clear(from, At(true), vector.error)
    {
      hide Temporary, Keeps, Unrefused, Clear;
      var text: seq<byte> := *;
      status := card.WriteAtomic(path, temporary, text);
      if status != FsOk {
        Report(WriteError(status), true, from);
      }
    }

    method WriteTextIfMissing(path: string, temporary: string, ghost from: Moment) returns (status: FsStatus)
      requires Temporary(temporary) && !Temporary(path)
      requires Wired() && HasBus() && Unrefused(from, At(true))
      modifies this`vector, this`writes, card`files
      ensures Keeps(old(card.files), card.files) && (status == FsOk ==> path in card.files)
      ensures vector == old(vector).(error := vector.error) && Unrefused(from, At(true))
      ensures status != FsOk ==> Clear(from, At(true), vector.error)
    {
      hide Temporary, Keeps, Unrefused, Clear;
      KeepsItself(card.files);
      var found, isDir, _ := card.FileInfo(path);
      if found == FsOk && !isDir {
        return FsOk;
      }
      if found != FsOk && found != FsNotFound {
        Report(ERROR_NO_FS, true, from);
        return found;
      }
      status := WriteText(path, temporary, from);
    }

    /** The directories of the system pack, up to the first that fails. */
    method MakePackDirectories() returns (status: FsStatus)
      requires card.Held()
      modifies card`directories
      ensures old(card.directories) <= card.directories
      ensures status == FsOk ==> forall i :: 0 <= i < |PACK_DIRECTORIES| ==> PACK_DIRECTORIES[i] in card.directories
    {
      status := FsOk;
      for i := 0 to |PACK_DIRECTORIES|
        invariant old(card.directories) <= card.directories
        invariant forall k :: 0 <= k < i ==> PACK_DIRECTORIES[k] in card.directories
      {
        status := card.MakeDirectory(PACK_DIRECTORIES[i]);
        if status != FsOk {
          return;
        }
      }
    }

    /** The files of the system pack that are missing, up to the first that fails, and then the manifest. */
    method WritePack(ghost from: Moment) returns (status: FsStatus)
      requires Wired() && HasBus() && Unrefused(from, At(true))
      modifies this`vector, this`writes, card`files
      ensures Keeps(old(card.files), card.files)
      ensures vector == old(vector).(error := vector.error) && Unrefused(from, At(true))
      ensures status != FsOk ==> Clear(from, At(true), vector.error)
      ensures status == FsOk ==> MANIFEST in card.files && PackPresent(card.files, |PACK_FILES|)
    {
      hide Temporary, Keeps, PackPresent, Unrefused, Clear;
      KeepsItself(card.files);
      NothingPresent(card.files);
      for i := 0 to |PACK_FILES|
        invariant Wired() && HasBus() && Unrefused(from, At(true))
        invariant vector == old(vector).(error := vector.error) && Keeps(old(card.files), card.files)
        invariant PackPresent(card.files, i)
      {
        ghost var was := card.files;
        PackNamesAreApart(i);
        status := WriteTextIfMissing(PACK_FILES[i].0, PACK_FILES[i].1, from);
        KeepsTrans(old(card.files), was, card.files);
        if status != FsOk {
          return;
        }
        OneMorePresent(was, card.files, i);
      }
      ghost var was := card.files;
      ManifestIsApart();
      status := WriteText(MANIFEST, MANIFEST + ".tmp", from);
      KeepsTrans(old(card.files), was, card.files);
      PresentStays(was, card.files, |PACK_FILES|);
    }

    /** All directories and files of the system pack are on the card, and a manifest. */
    ghost predicate PackComplete()
      reads card`files, card`directories
    {
      && MANIFEST in card.files && PackPresent(card.files, |PACK_FILES|)
      && forall i :: 0 <= i < |PACK_DIRECTORIES| ==> PACK_DIRECTORIES[i] in card.directories
    }

    /** There is something under the name of the manifest. */
    ghost predicate HasManifest()
      reads card`files, card`directories
    {
      MANIFEST in card.files || MANIFEST in card.directories
    }

    /** The card gets the files every device needs, unless it has a manifest already. */
    method MakeSystemPack(ghost from: Moment) returns (ok: bool)
      requires AtRest() && from == At(false)
      modifies this`vector, this`writes, card, arbiter, arbiter.owners
      ensures AtRest() && Over(from, At(false), ok, vector.error)
      ensures SameRecords(old(vector), vector)
      ensures Keeps(old(card.files), card.files)
      ensures ok ==> HasManifest() && (old(HasManifest()) || PackComplete())
    {
      hide Wired, Keeps, PackPresent, Unrefused, Clear, Honest;
      KeepsItself(card.files);
      ok := ProbeAndAcquire(from);
      if !ok {
        return false;
      }
      CardIsHeld();
      var status, _, _ := card.FileInfo(MANIFEST);
      if status == FsOk {
        ReleaseBus(from);
        return true;
      }
      if status != FsNotFound {
        Fail(ERROR_NO_FS, from);
        return false;
      }
      ok := FillCard(from);
    }

    /** Directories and files, then the bus is given back. */
    method FillCard(ghost from: Moment) returns (ok: bool)
      requires Wired() && HasBus() && Unrefused(from, At(true)) && Clear(from, At(true), vector.error) && vector.state != Uninitialized
      modifies this`vector, this`writes, card, arbiter, arbiter.owners
      ensures AtRest() && Clear(from, At(false), vector.error) && Unrefused(from, At(false))
      ensures SameRecords(old(vector), vector)
      ensures Keeps(old(card.files), card.files)
      ensures ok ==> PackComplete()
    {
      hide Wired, Keeps, PackPresent, Unrefused, Clear;
      KeepsItself(card.files);
      CardIsHeld();
      var status := MakePackDirectories();
      var formatted: bool := *;
      if status != FsOk || !formatted {
        Fail(ERROR_WRITE_FAILED, from);
        return false;
      }
      status := WritePack(from);
      ReleaseBus(from);
      if status != FsOk {
        return false;
      }
      vector := vector.(state := CardReady, fsMounted := true);
      Report(ERROR_NONE, false, from);
      vector := vector.(manifest := ManifestUnknown, required := 0, missing := 0);
      ok := true;
    }

    method InitializeSystemPack() returns (ok: bool)
      requires AtRest()
      modifies this`vector, this`writes, this`attempts, card, arbiter, arbiter.owners
      ensures AtRest() && Honest(old(At(false)), At(false), ok, vector.error)
      ensures attempts == old(attempts) + [AttemptSince(InitOp, old(At(false)), ok)]
      ensures SameRecords(old(vector), vector)
      ensures Keeps(old(card.files), card.files)
      ensures ok ==> HasManifest() && (old(HasManifest()) || PackComplete())
    {
      hide Wired, Keeps, Follows, Refused, Overtaken;
      ghost var from := At(false);
      ok := MakeSystemPack(from);
      OthersAct(false, from);
      Note(InitOp, from, ok);
    }

    /** Whatever the text of the manifest says. */
    method ReadManifest(text: seq<byte>) returns (verdict: ManifestStatus, required: u32, missing: u32)
      ensures verdict != ManifestUnknown && verdict != ManifestNotFound && verdict != ManifestIoError && verdict != ManifestDenied
    {
      verdict, required, missing := *, *, *;
      if verdict in {ManifestUnknown, ManifestNotFound, ManifestIoError, ManifestDenied} {
        verdict := ManifestInvalid;
      }
    }

    /** The manifest's own text decides the rest; only a missing file is told apart by the job machine. */
    method ScanCard(ghost from: Moment) returns (ok: bool)
      requires AtRest() && from == At(false)
      modifies this`vector, this`writes, arbiter, arbiter.owners
      ensures AtRest() && Over(from, At(false), ok, vector.error) && SameRecords(old(vector), vector)
      ensures Scanned(from, ok)
    {
      hide Wired, Follows, Refused, Clear, Honest;
      vector := vector.(manifest := ManifestUnknown, required := 0, missing := 0);
      var ready := ProbeAndAcquire(from);
      if !ready {
        vector := vector.(manifest := if vector.state == PathDenied then ManifestDenied else ManifestIoError);
        return false;
      }
      ok := JudgeManifest(from);
    }

    method JudgeManifest(ghost from: Moment) returns (ok: bool)
      requires Wired() && HasBus() && Unrefused(from, At(true)) && Clear(from, At(true), vector.error) && vector.state != Uninitialized
      modifies this`vector, this`writes, arbiter, arbiter.owners
      ensures AtRest() && Clear(from, At(false), vector.error) && SameRecords(old(vector), vector)
      ensures Scanned(from, ok)
    {
      hide Wired, Follows, Refused, Clear;
      CardIsHeld();
      var status, text := card.ReadText(MANIFEST);
      if status != FsOk {
        ReleaseBus(from);
        vector := vector.(manifest := if status == FsNotFound then ManifestNotFound else ManifestIoError);
        return false;
      }
      var verdict, required, missing := ReadManifest(text);
      ReleaseBus(from);
      vector := vector.(required := required, missing := missing, manifest := verdict);
      ok := verdict == ManifestOk;
    }

    /** A scan succeeds on a sound manifest that is on the card, and finds none missing only when the bus was granted. */
    ghost predicate Scanned(from: Moment, ok: bool)
      reads this`vector, this`writes, arbiter`active, arbiter`calls, card`files
    {
      && (ok <==> vector.manifest == ManifestOk) && (ok ==> MANIFEST in card.files)
      && (vector.manifest == ManifestNotFound ==> !Refused(from, At(false)))
    }

    method ScanManifest() returns (ok: bool)
      requires AtRest()
      modifies this`vector, this`writes, this`attempts, arbiter, arbiter.owners
      ensures AtRest() && Honest(old(At(false)), At(false), ok, vector.error)
      ensures attempts == old(attempts) + [AttemptSince(ScanOp, old(At(false)), ok)]
      ensures SameRecords(old(vector), vector) && Scanned(old(At(false)), ok)
    {
      hide Wired, Follows, Refused, Overtaken;
      ghost var from := At(false);
      ok := ScanCard(from);
      OthersAct(false, from);
      Note(ScanOp, from, ok);
    }

    /** The directory of a kind of file is made, and the next number in it found. */
    method PrepareDirectory(parent: string, directory: string, prefix: string, suffix: string)
      returns (error: u32, sequence: u32)
      requires card.Held()
      modifies card`directories
      ensures error in {ERROR_NONE, ERROR_WRITE_FAILED, ERROR_SEQUENCE}
      ensures error == ERROR_NONE ==> 0 < sequence <= MAX_SEQUENCE && directory in card.directories
    {
      var status := card.MakeDirectory(parent);
      if status == FsOk {
        status := card.MakeDirectory(directory);
      }
      if status != FsOk {
        return ERROR_WRITE_FAILED, 0;
      }
      var found, last := card.FindMaxSequence(directory, prefix, suffix);
      if found != FsOk || last >= MAX_SEQUENCE {
        return ERROR_SEQUENCE, 0;
      }
      return ERROR_NONE, last + 1;
    }

    /** What is published of a file that could not be written, the bus being given back. */
    method GiveUpSnapshot(error: u32, ghost from: Moment)
      requires Wired() && HasBus() && Unrefused(from, At(true)) && vector.state != Uninitialized && error != ERROR_BUSY
      modifies this`vector, this`writes, arbiter, arbiter.owners
      ensures AtRest() && SameButSnapshot(old(vector), vector)
      ensures vector.error == error && vector.snapshot == Written(0, "", error)
      ensures Clear(from, At(false), vector.error) && !Overtaken(from, At(false))
    {
      Fail(error, from);
      vector := vector.(snapshot := Written(0, "", error));
    }

    method GiveUpTrace(error: u32, ghost from: Moment)
      requires Wired() && HasBus() && Unrefused(from, At(true)) && vector.state != Uninitialized && error != ERROR_BUSY
      modifies this`vector, this`writes, arbiter, arbiter.owners
      ensures AtRest() && SameButTrace(old(vector), vector)
      ensures vector.error == error && vector.trace == Written(0, "", error)
      ensures Clear(from, At(false), vector.error) && !Overtaken(from, At(false))
    {
      Fail(error, from);
      vector := vector.(trace := Written(0, "", error));
    }

    method GiveUpReport(error: u32, ghost from: Moment)
      requires Wired() && HasBus() && Unrefused(from, At(true)) && vector.state != Uninitialized && error != ERROR_BUSY
      modifies this`vector, this`writes, arbiter, arbiter.owners
      ensures AtRest() && SameButReport(old(vector), vector)
      ensures vector.error == error && vector.report == Written(0, "", error)
      ensures Clear(from, At(false), vector.error) && !Overtaken(from, At(false))
    {
      Fail(error, from);
      vector := vector.(report := Written(0, "", error));
    }

    /** The numbered file that `w` tells of was not on the card and now is; no other file is touched. */
    ghost predicate Stored(was: Files, w: Written, directory: CString, stem: CString, extension: CString)
      reads card`files
    {
      && w.path == NumberedFile(directory, stem, w.id, extension) && w.path in card.files
      && Added(was, card.files, w.path, card.files[w.path])
    }

    method SnapshotUnderBus(kind: CString, ghost from: Moment) returns (ok: bool)
      requires SnapshotKindValid(kind)
      requires Wired() && HasBus() && Unrefused(from, At(true)) && vector.state != Uninitialized
      modifies this`vector, this`writes, card, arbiter, arbiter.owners
      ensures AtRest() && Clear(from, At(false), vector.error)
      ensures Told(vector.snapshot, vector, ok, Overtaken(from, At(false))) && SameButSnapshot(old(vector), vector)
      ensures Keeps(old(card.files), card.files)
      ensures ok ==> Stored(old(card.files), vector.snapshot, SnapshotDirectory(kind), kind, JSON)
    {
      hide Wired, Unrefused, Clear, Keeps, NumberedFile, SnapshotDirectory;
      KeepsItself(card.files);
      CardIsHeld();
      var directory := SnapshotDirectory(kind);
      var error, sequence := PrepareDirectory("/snapshots", directory, kind + "_", JSON);
      if error != ERROR_NONE {
        GiveUpSnapshot(error, from);
        return false;
      }
      ok := StoreSnapshot(kind, sequence, from);
    }

    /** The file must not be there yet, and its text must fit its buffer. */
    method StoreSnapshot(kind: CString, sequence: u32, ghost from: Moment) returns (ok: bool)
      requires 0 < sequence <= MAX_SEQUENCE
      requires Wired() && HasBus() && Unrefused(from, At(true)) && vector.state != Uninitialized
      modifies this`vector, this`writes, card`files, arbiter, arbiter.owners
      ensures AtRest() && Clear(from, At(false), vector.error)
      ensures Told(vector.snapshot, vector, ok, Overtaken(from, At(false))) && SameButSnapshot(old(vector), vector)
      ensures Keeps(old(card.files), card.files)
      ensures ok ==> Stored(old(card.files), vector.snapshot, SnapshotDirectory(kind), kind, JSON)
    {
      hide Wired, Unrefused, Clear, Keeps, NumberedFile, SnapshotDirectory, TemporaryFile, Temporary;
      KeepsItself(card.files);
      CardIsHeld();
      var directory := SnapshotDirectory(kind);
      var path := NumberedFile(directory, kind, sequence, JSON);
      NamesAreApart(directory, kind, sequence, JSON);
      var found, _, _ := card.FileInfo(path);
      var text: seq<byte>, formatted: bool := *, *;
      if found == FsOk || !formatted {
        GiveUpSnapshot(if found == FsOk then ERROR_SEQUENCE else ERROR_WRITE_FAILED, from);
        return false;
      }
      var status := card.WriteAtomic(path, TemporaryFile(directory, kind), text);
      ok := status == FsOk;
      FinishSnapshot(status, path, sequence, from);
    }

    method FinishSnapshot(status: FsStatus, path: CString, sequence: u32, ghost from: Moment)
      requires 0 < sequence
      requires Wired() && HasBus() && Unrefused(from, At(true)) && vector.state != Uninitialized
      modifies this`vector, this`writes, arbiter, arbiter.owners
      ensures AtRest() && Clear(from, At(false), vector.error)
      ensures Told(vector.snapshot, vector, status == FsOk, Overtaken(from, At(false))) && SameButSnapshot(old(vector), vector)
      ensures vector.snapshot.path == path && (status == FsOk ==> vector.snapshot.id == sequence)
    {
      hide Wired, Unrefused, Clear;
      ReleaseBus(from);
      if status != FsOk {
        var error := WriteError(status);
        Report(error, false, from);
        vector := vector.(snapshot := Written(0, path, error));
        return;
      }
      vector := vector.(state := CardReady, fsMounted := true);
      Report(ERROR_NONE, false, from);
      vector := vector.(snapshot := Written(sequence, path, ERROR_NONE));
    }

    method TakeSnapshot(kind: CString, ghost from: Moment) returns (ok: bool)
      requires AtRest() && from == At(false)
      modifies this`vector, this`writes, card, arbiter, arbiter.owners
      ensures AtRest() && Over(from, At(false), ok, vector.error)
      ensures Told(vector.snapshot, vector, ok, Overtaken(from, At(false))) && SameButSnapshot(old(vector), vector)
      ensures Keeps(old(card.files), card.files)
      ensures ok ==> SnapshotStored(old(card.files), vector.snapshot, kind)
    {
      hide Wired, Follows, Refused, Clear, Honest, Keeps, SnapshotKindValid, SnapshotKindOf, Stored;
      KeepsItself(card.files);
      var snapshotKind := SnapshotKindOf(kind);
      if !SnapshotKindValid(snapshotKind) {
        FollowsItself(from);
        vector := vector.(snapshot := Written(0, "", ERROR_PATH));
        Report(ERROR_PATH, false, from);
        return false;
      }
      ok := ProbeAndAcquire(from);
      if !ok {
        vector := vector.(snapshot := Written(0, "", vector.error));
        return false;
      }
      ok := SnapshotUnderBus(snapshotKind, from);
    }

    ghost predicate SnapshotStored(was: Files, w: Written, kind: CString)
      reads card`files
    {
      Stored(was, w, SnapshotDirectory(SnapshotKindOf(kind)), SnapshotKindOf(kind), JSON)
    }

    method WriteSnapshot(kind: CString) returns (ok: bool)
      requires AtRest()
      modifies this`vector, this`writes, this`attempts, card, arbiter, arbiter.owners
      ensures AtRest() && Honest(old(At(false)), At(false), ok, vector.error)
      ensures attempts == old(attempts) + [AttemptSince(SnapshotOp, old(At(false)), ok)]
      ensures Told(vector.snapshot, vector, ok, Overtaken(old(At(false)), At(false))) && SameButSnapshot(old(vector), vector)
      ensures Keeps(old(card.files), card.files)
      ensures ok ==> SnapshotStored(old(card.files), vector.snapshot, kind)
    {
      hide Wired, Follows, Refused, Overtaken, Keeps, SnapshotKindOf, Stored;
      ghost var from := At(false);
      ok := TakeSnapshot(kind, from);
      OthersAct(false, from);
      Note(SnapshotOp, from, ok);
    }

    /** No kind means a fault trace. */
    function TraceKindOf(kind: CString): CString { if kind == "" then "fault" else kind }

    lemma RingIsValid()
      requires Wired()
      ensures ring.Valid()
    {
    }

    /** The trace file is new and holds the recent events; its index is new too. */
    ghost predicate TraceStored(was: Files, w: Written, kind: CString, now: u32)
      reads card`files, ring, ring.slots
    {
      var directory := TraceDirectory(TraceKindOf(kind));
      && w.path == NumberedFile(directory, TraceKindOf(kind), w.id, BIN)
      && |Trace.Recent(ring.history)| <= Trace.RING_COUNT
      && Added(was, card.files, w.path, Trace.TraceFile(crc, Trace.Recent(ring.history), w.id, now))
      && NumberedFile(directory, TraceKindOf(kind), w.id, INDEX) in card.files
    }

    method TakeTrace(kind: CString, now: u32, ghost from: Moment) returns (ok: bool)
      requires AtRest() && from == At(false)
      modifies this`vector, this`writes, card, arbiter, arbiter.owners
      ensures AtRest() && Over(from, At(false), ok, vector.error)
      ensures Told(vector.trace, vector, ok, Overtaken(from, At(false))) && SameButTrace(old(vector), vector)
      ensures Keeps(old(card.files), card.files)
      ensures ok ==> TraceStored(old(card.files), vector.trace, kind, now)
    {
      hide Wired, Follows, Refused, Clear, Honest, Keeps, TraceKindValid, TraceStored, TraceKindOf;
      KeepsItself(card.files);
      if !TraceKindValid(TraceKindOf(kind)) {
        FollowsItself(from);
        vector := vector.(trace := Written(0, "", ERROR_PATH));
        Report(ERROR_PATH, false, from);
        return false;
      }
      ok := ProbeAndAcquire(from);
      if !ok {
        vector := vector.(trace := Written(0, "", vector.error));
        return false;
      }
      ok := TraceUnderBus(kind, now, from);
    }

    method TraceUnderBus(kind: CString, now: u32, ghost from: Moment) returns (ok: bool)
      requires Wired() && HasBus() && Unrefused(from, At(true)) && vector.state != Uninitialized
      modifies this`vector, this`writes, card, arbiter, arbiter.owners
      ensures AtRest() && Clear(from, At(false), vector.error)
      ensures Told(vector.trace, vector, ok, Overtaken(from, At(false))) && SameButTrace(old(vector), vector)
      ensures Keeps(old(card.files), card.files)
      ensures ok ==> TraceStored(old(card.files), vector.trace, kind, now)
    {
      hide Wired, Unrefused, Clear, Keeps, TraceStored, TraceKindOf, TraceDirectory, NumberedFile;
      KeepsItself(card.files);
      CardIsHeld();
      var directory := TraceDirectory(TraceKindOf(kind));
      var error, sequence := PrepareDirectory("/traces", directory, TraceKindOf(kind) + "_", BIN);
      if error != ERROR_NONE {
        GiveUpTrace(error, from);
        return false;
      }
      ghost var was := card.files;
      var path := NumberedFile(directory, TraceKindOf(kind), sequence, BIN);
      var status := StoreTrace(kind, sequence, now);
      FinishTrace(status, path, sequence, from);
      ok := status == FsOk;
      if ok { TraceIsStored(was, vector.trace, kind, now); }
    }

    lemma TraceIsStored(was: Files, w: Written, kind: CString, now: u32)
      requires w.path == NumberedFile(TraceDirectory(TraceKindOf(kind)), TraceKindOf(kind), w.id, BIN)
      requires BothFiles(was, kind, w.id, now)
      ensures TraceStored(was, w, kind, now)
    {
    }

    /** The trace file under the number, with the events the ring holds, and its index. */
    ghost predicate BothFiles(was: Files, kind: CString, sequence: u32, now: u32)
      reads card`files, ring, ring.slots
    {
      var directory := TraceDirectory(TraceKindOf(kind));
      && |Trace.Recent(ring.history)| <= Trace.RING_COUNT
      && Added(was, card.files, NumberedFile(directory, TraceKindOf(kind), sequence, BIN),
               Trace.TraceFile(crc, Trace.Recent(ring.history), sequence, now))
      && NumberedFile(directory, TraceKindOf(kind), sequence, INDEX) in card.files
    }

    method StoreTrace(kind: CString, sequence: u32, now: u32) returns (status: FsStatus)
      requires Wired() && HasBus()
      modifies card`files
      ensures Keeps(old(card.files), card.files)
      ensures status == FsOk ==> BothFiles(old(card.files), kind, sequence, now)
    {
      hide Wired, Keeps, Temporary, TraceKindOf, TraceDirectory, NumberedFile, TemporaryFile, Trace.TraceFile, Trace.Recent;
      CardIsHeld();
      RingIsValid();
      ghost var was := card.files;
      var directory, name := TraceDirectory(TraceKindOf(kind)), TraceKindOf(kind);
      NamesAreApart(directory, name, sequence, BIN);
      NamesAreApart(directory, name + INDEX, sequence, BIN);
      NamesAreApart(directory, name, sequence, INDEX);
      var payload := ring.WritePayload(crc, sequence, now);
      status := card.WriteAtomic(NumberedFile(directory, name, sequence, BIN), TemporaryFile(directory, name), payload);
      if status == FsOk {
        ghost var mid := card.files;
        var text: seq<byte>, formatted: bool := *, *;
        if !formatted {
          return FsOther;
        }
        status := card.WriteAtomic(NumberedFile(directory, name, sequence, INDEX), TemporaryFile(directory, name + INDEX), text);
        KeepsTrans(was, mid, card.files);
      }
    }

    method FinishTrace(status: FsStatus, path: CString, sequence: u32, ghost from: Moment)
      requires 0 < sequence
      requires Wired() && HasBus() && Unrefused(from, At(true)) && vector.state != Uninitialized
      modifies this`vector, this`writes, arbiter, arbiter.owners
      ensures AtRest() && Clear(from, At(false), vector.error)
      ensures Told(vector.trace, vector, status == FsOk, Overtaken(from, At(false))) && SameButTrace(old(vector), vector)
      ensures vector.trace.path == path && (status == FsOk ==> vector.trace.id == sequence)
    {
      hide Wired, Unrefused, Clear;
      ReleaseBus(from);
      if status != FsOk {
        var error := WriteError(status);
        Report(error, false, from);
        vector := vector.(trace := Written(0, path, error));
        return;
      }
      vector := vector.(state := CardReady, fsMounted := true);
      Report(ERROR_NONE, false, from);
      vector := vector.(trace := Written(sequence, path, ERROR_NONE));
    }

    method WriteTrace(kind: CString, now: u32) returns (ok: bool)
      requires AtRest()
      modifies this`vector, this`writes, this`attempts, card, arbiter, arbiter.owners
      ensures AtRest() && Honest(old(At(false)), At(false), ok, vector.error)
      ensures attempts == old(attempts) + [AttemptSince(TraceOp, old(At(false)), ok)]
      ensures Told(vector.trace, vector, ok, Overtaken(old(At(false)), At(false))) && SameButTrace(old(vector), vector)
      ensures Keeps(old(card.files), card.files)
      ensures ok ==> TraceStored(old(card.files), vector.trace, kind, now)
    {
      hide Wired, Follows, Refused, Overtaken, Keeps, NumberedFile, TraceKindOf, TraceDirectory, Added, Trace.TraceFile, Trace.Recent;
      ghost var from := At(false);
      ok := TakeTrace(kind, now, from);
      OthersAct(false, from);
      Note(TraceOp, from, ok);
    }

    method TakeReport(ghost from: Moment) returns (ok: bool)
      requires AtRest() && from == At(false)
      modifies this`vector, this`writes, card, arbiter, arbiter.owners
      ensures AtRest() && Over(from, At(false), ok, vector.error)
      ensures Told(vector.report, vector, ok, Overtaken(from, At(false))) && SameButReport(old(vector), vector)
      ensures Keeps(old(card.files), card.files)
      ensures ok ==> Stored(old(card.files), vector.report, REPORT_DIRECTORY, PULSE_FAULT, JSON)
    {
      hide Wired, Follows, Refused, Clear, Honest, Keeps, Stored;
      KeepsItself(card.files);
      ok := ProbeAndAcquire(from);
      if !ok {
        vector := vector.(report := Written(0, "", vector.error));
        return false;
      }
      ok := ReportUnderBus(from);
    }

    method ReportUnderBus(ghost from: Moment) returns (ok: bool)
      requires Wired() && HasBus() && Unrefused(from, At(true)) && vector.state != Uninitialized
      modifies this`vector, this`writes, card, arbiter, arbiter.owners
      ensures AtRest() && Clear(from, At(false), vector.error)
      ensures Told(vector.report, vector, ok, Overtaken(from, At(false))) && SameButReport(old(vector), vector)
      ensures Keeps(old(card.files), card.files)
      ensures ok ==> Stored(old(card.files), vector.report, REPORT_DIRECTORY, PULSE_FAULT, JSON)
    {
      hide Wired, Unrefused, Clear, Keeps, NumberedFile, TemporaryFile, Temporary;
      KeepsItself(card.files);
      CardIsHeld();
      var error, sequence := PrepareDirectory("/reports", REPORT_DIRECTORY, PULSE_FAULT + "_", JSON);
      var text: seq<byte>, formatted: bool := *, *;
      if error != ERROR_NONE || !formatted {
        GiveUpReport(if error != ERROR_NONE then error else ERROR_WRITE_FAILED, from);
        return false;
      }
      var path := NumberedFile(REPORT_DIRECTORY, PULSE_FAULT, sequence, JSON);
      NamesAreApart(REPORT_DIRECTORY, PULSE_FAULT, sequence, JSON);
      var status := card.WriteAtomic(path, TemporaryFile(REPORT_DIRECTORY, PULSE_FAULT), text);
      ok := status == FsOk;
      FinishReport(status, path, sequence, from);
    }

    method FinishReport(status: FsStatus, path: CString, sequence: u32, ghost from: Moment)
      requires 0 < sequence
      requires Wired() && HasBus() && Unrefused(from, At(true)) && vector.state != Uninitialized
      modifies this`vector, this`writes, arbiter, arbiter.owners
      ensures AtRest() && Clear(from, At(false), vector.error)
      ensures Told(vector.report, vector, status == FsOk, Overtaken(from, At(false))) && SameButReport(old(vector), vector)
      ensures vector.report.path == path && (status == FsOk ==> vector.report.id == sequence)
    {
      hide Wired, Unrefused, Clear;
      ReleaseBus(from);
      if status != FsOk {
        var error := WriteError(status);
        Report(error, false, from);
        vector := vector.(report := Written(0, path, error));
        return;
      }
      vector := vector.(state := CardReady, fsMounted := true);
      Report(ERROR_NONE, false, from);
      vector := vector.(report := Written(sequence, path, ERROR_NONE));
    }

    method WriteFaultReport() returns (ok: bool)
      requires AtRest()
      modifies this`vector, this`writes, this`attempts, card, arbiter, arbiter.owners
      ensures AtRest() && Honest(old(At(false)), At(false), ok, vector.error)
      ensures attempts == old(attempts) + [AttemptSince(ReportOp, old(At(false)), ok)]
      ensures Told(vector.report, vector, ok, Overtaken(old(At(false)), At(false))) && SameButReport(old(vector), vector)
      ensures Keeps(old(card.files), card.files)
      ensures ok ==> Stored(old(card.files), vector.report, REPORT_DIRECTORY, PULSE_FAULT, JSON)
    {
      hide Wired, Follows, Refused, Overtaken, Keeps, Stored;
      ghost var from := At(false);
      ok := TakeReport(from);
      OthersAct(false, from);
      Note(ReportOp, from, ok);
    }

    // ----- posting a job -----

    /** The file is on the card under its own name. */
    ghost predicate Filed(path: string)
      reads card`files
    {
      path in card.files && !Temporary(path)
    }

    /** Each file an evidence job counts as written is on the card, where the vector says it is. */
    ghost predicate EvidenceOnCard()
      reads this`vector, this`job, card`files
    {
      var c := job.control;
      c.kind == FaultEvidence ==>
        (c.ok0 ==> Filed(vector.snapshot.path)) && (c.ok1 ==> Filed(vector.trace.path)) && (c.ok2 ==> Filed(vector.report.path))
    }

    /** What every post and every service call keeps. */
    ghost predicate Steady()
      reads this, card`files, arbiter, arbiter.owners, ring, ring.slots
    {
      AtRest() && Agrees() && EvidenceOnCard() && RequestInOrder() && MachineInv(View())
    }

    /** What an active job asks for can be looked up or written. */
    ghost predicate RequestInOrder()
      reads this`job
    {
      Active(job.control) ==>
        && (job.control.kind == FileRead ==> 0 < job.length <= FILE_READ_MAX)
        && (job.control.kind == CatalogPage ==> job.limit != 0)
        && (job.control.kind == SnapshotWrite ==> SnapshotKindValid(job.argument) && job.argument != "")
    }

    /** An evidence job that is done has left its three files on the card. */
    lemma DoneIsOnCard()
      requires Steady() && job.control.kind == FaultEvidence && job.control.phase == Done
      ensures Filed(vector.snapshot.path) && Filed(vector.trace.path) && Filed(vector.report.path)
    {
    }

    method Publish()
      modifies this`vector
      ensures Agrees() && vector == old(vector).(job := vector.job)
    {
      vector := vector.(job := PublishedOf(job));
    }

    /** Clear the slot for a new job. */
    method BeginJob(kind: Kind)
      modifies this`job, this`nextJobId, this`attempts
      ensures job == FreshJob(old(nextJobId), kind) && nextJobId == NextId(old(nextJobId)) && attempts == []
    {
      job := FreshJob(nextJobId, kind);
      nextJobId := Inc(nextJobId);
      if nextJobId == 0 {
        nextJobId := 1;
      }
      attempts := [];
    }

    /** The job fails at once: its request is invalid. */
    method RejectRequest(error: u32, path: CString)
      requires error != ERROR_BUSY
      modifies this`vector, this`writes, this`job
      ensures Agrees() && vector.error == error && vector.state == old(vector.state)
      ensures job == old(job).(control := old(job.control).(phase := Failed), error := error, path := path, pathHash := PathHash(path))
    {
      SetError(error);
      job := job.(control := job.control.(phase := Failed), error := error, path := path, pathHash := PathHash(path));
      Publish();
    }

    method Enqueue(path: CString)
      modifies this`vector, this`job
      ensures Agrees() && vector == old(vector).(job := vector.job)
      ensures job == old(job).(control := old(job.control).(phase := Queued), error := ERROR_NONE, path := path, pathHash := PathHash(path))
    {
      job := job.(control := job.control.(phase := Queued), error := ERROR_NONE, path := path, pathHash := PathHash(path));
      Publish();
    }

    /** Take the path of a request, or fail the job when it is refused. */
    method EnqueuePath(path: Option<CString>) returns (accepted: bool)
      requires AtRest()
      modifies this`vector, this`writes, this`job
      ensures AtRest() && Agrees()
      ensures accepted <==> path.Some? && Normalized(path.value, MAX_PATH_LEN + 1).Some?
      ensures job.control == old(job.control).(phase := if accepted then Queued else Failed)
      ensures vector.error == if accepted then old(vector.error) else ERROR_PATH_DENIED
      ensures accepted ==> job.path == Normalized(path.value, MAX_PATH_LEN + 1).value
      ensures !accepted ==> job.error == ERROR_PATH_DENIED && job.path == Spelled(path)
      ensures job.length == old(job.length) && job.offset == old(job.offset) && job.limit == old(job.limit)
    {
      hide Wired, Normalized;
      var target := NormalizePath(path, MAX_PATH_LEN + 1);
      accepted := target.Some?;
      if target.None? {
        vector := vector.(state := PathDenied);
        RejectRequest(ERROR_PATH_DENIED, Spelled(path));
      } else {
        Enqueue(target.value);
      }
    }

    /** The same, when a range or a page of no length is refused as well. */
    method EnqueueSome(length: u32, path: Option<CString>) returns (accepted: bool)
      requires AtRest()
      modifies this`vector, this`writes, this`job
      ensures AtRest() && Agrees()
      ensures accepted <==> length != 0 && path.Some? && Normalized(path.value, MAX_PATH_LEN + 1).Some?
      ensures job.control == old(job.control).(phase := if accepted then Queued else Failed)
      ensures vector.error == if accepted then old(vector.error) else if length == 0 then ERROR_PATH else ERROR_PATH_DENIED
      ensures accepted ==> job.path == Normalized(path.value, MAX_PATH_LEN + 1).value
      ensures !accepted ==> job.error == (if length == 0 then ERROR_PATH else ERROR_PATH_DENIED) && job.path == Spelled(path)
      ensures job.length == old(job.length) && job.offset == old(job.offset) && job.limit == old(job.limit)
    {
      hide Wired, Normalized, PathHash, PublishedOf;
      accepted := false;
      if length == 0 {
        RejectRequest(ERROR_PATH, Spelled(path));
      } else {
        accepted := EnqueuePath(path);
      }
    }

    /** A request without a path is reported with an empty one. */
    function Spelled(path: Option<CString>): CString { if path.Some? then path.value else "" }

    method PostFileInfoJob(path: Option<CString>) returns (posted: bool, id: u32)
      requires Steady()
      modifies this`vector, this`writes, this`job, this`nextJobId, this`attempts
      ensures Steady() && (posted <==> !Active(old(job.control)))
      ensures posted ==> id == old(nextJobId) == job.control.id
      ensures !posted ==> job == old(job) && nextJobId == old(nextJobId)
      ensures View() == Posted(old(View()), FileInfo, path.Some? && Normalized(path.value, MAX_PATH_LEN + 1).Some?)
      ensures posted && Active(job.control) ==> path.Some? && Some(job.path) == Normalized(path.value, MAX_PATH_LEN + 1)
      ensures posted && !Active(job.control) ==> job.error == ERROR_PATH_DENIED && job.path == Spelled(path)
    {
      hide Wired, Normalized, MachineInv, PathHash, Filed, PublishedOf;
      PostKeepsInv(View(), FileInfo, path.Some? && Normalized(path.value, MAX_PATH_LEN + 1).Some?);
      if Active(job.control) {
        TurnAway();
        return false, 0;
      }
      BeginJob(FileInfo);
      var _ := EnqueuePath(path);
      return true, job.control.id;
    }

    method PostFileReadJob(path: Option<CString>, offset: u32, length: u32) returns (posted: bool, id: u32)
      requires Steady()
      modifies this`vector, this`writes, this`job, this`nextJobId, this`attempts
      ensures Steady() && (posted <==> !Active(old(job.control)))
      ensures posted ==> id == old(nextJobId) == job.control.id
      ensures !posted ==> job == old(job) && nextJobId == old(nextJobId)
      ensures View() == Posted(old(View()), FileRead, length != 0 && path.Some? && Normalized(path.value, MAX_PATH_LEN + 1).Some?)
      ensures posted ==> job.offset == offset && job.length == if length > FILE_READ_MAX then FILE_READ_MAX else length
      ensures posted && Active(job.control) ==> path.Some? && Some(job.path) == Normalized(path.value, MAX_PATH_LEN + 1)
      ensures posted && !Active(job.control) ==>
                job.error == (if length == 0 then ERROR_PATH else ERROR_PATH_DENIED) && job.path == Spelled(path)
    {
      hide Wired, Normalized, MachineInv, PathHash, Filed, PublishedOf;
      PostKeepsInv(View(), FileRead, length != 0 && path.Some? && Normalized(path.value, MAX_PATH_LEN + 1).Some?);
      if Active(job.control) {
        TurnAway();
        return false, 0;
      }
      BeginJob(FileRead);
      job := job.(offset := offset, length := if length > FILE_READ_MAX then FILE_READ_MAX else length);
      var _ := EnqueueSome(job.length, path);
      return true, job.control.id;
    }

    method PostCatalogPageJob(path: Option<CString>, offset: u32, limit: u32) returns (posted: bool, id: u32)
      requires Steady()
      modifies this`vector, this`writes, this`job, this`nextJobId, this`attempts
      ensures Steady() && (posted <==> !Active(old(job.control)))
      ensures posted ==> id == old(nextJobId) == job.control.id
      ensures !posted ==> job == old(job) && nextJobId == old(nextJobId)
      ensures View() == Posted(old(View()), CatalogPage, limit != 0 && path.Some? && Normalized(path.value, MAX_PATH_LEN + 1).Some?)
      ensures posted ==> job.offset == offset && job.limit == limit
      ensures posted && Active(job.control) ==> job.isDir && path.Some? && Some(job.path) == Normalized(path.value, MAX_PATH_LEN + 1)
      ensures posted && !Active(job.control) ==>
                job.error == (if limit == 0 then ERROR_PATH else ERROR_PATH_DENIED) && job.path == Spelled(path)
    {
      hide Wired, Normalized, MachineInv, PathHash, Filed, PublishedOf;
      PostKeepsInv(View(), CatalogPage, limit != 0 && path.Some? && Normalized(path.value, MAX_PATH_LEN + 1).Some?);
      if Active(job.control) {
        TurnAway();
        return false, 0;
      }
      BeginJob(CatalogPage);
      job := job.(offset := offset, limit := limit);
      var accepted := EnqueueSome(limit, path);
      if accepted {
        IsDirIsUnpublished(job);
        job := job.(isDir := true);
      }
      return true, job.control.id;
    }

    method PostSnapshotJob(kind: CString) returns (posted: bool, id: u32)
      requires Steady()
      modifies this`vector, this`writes, this`job, this`nextJobId, this`attempts
      ensures Steady() && (posted <==> !Active(old(job.control)))
      ensures posted ==> id == old(nextJobId) == job.control.id
      ensures !posted ==> job == old(job) && nextJobId == old(nextJobId)
      ensures View() == Posted(old(View()), SnapshotWrite, SnapshotKindValid(SnapshotKindOf(kind)))
      ensures posted ==> job.argument == job.path == SnapshotKindOf(kind) && (!Active(job.control) ==> job.error == ERROR_PATH)
    {
      hide Wired, SnapshotKindValid, SnapshotKindOf, PathHash, MachineInv, Filed, PublishedOf;
      PostKeepsInv(View(), SnapshotWrite, SnapshotKindValid(SnapshotKindOf(kind)));
      if Active(job.control) {
        TurnAway();
        return false, 0;
      }
      var snapshotKind := SnapshotKindOf(kind);
      SomeKind(kind);
      BeginJob(SnapshotWrite);
      job := job.(argument := snapshotKind);
      if !SnapshotKindValid(snapshotKind) {
        RejectRequest(ERROR_PATH, snapshotKind);
      } else {
        Enqueue(snapshotKind);
      }
      return true, job.control.id;
    }

    /** The three jobs without an argument. */
    method PostPlainJob(kind: Kind) returns (posted: bool, id: u32)
      requires kind in {ManifestScan, SystemInit, FaultEvidence}
      requires Steady()
      modifies this`vector, this`writes, this`job, this`nextJobId, this`attempts
      ensures Steady() && (posted <==> !Active(old(job.control)))
      ensures posted ==> id == old(nextJobId) == job.control.id
      ensures !posted ==> job == old(job) && nextJobId == old(nextJobId)
      ensures View() == Posted(old(View()), kind, true)
      ensures posted ==> job.path == (if kind == FaultEvidence then REPORT_DIRECTORY else MANIFEST)
    {
      hide Wired, MachineInv, PathHash, Filed, PublishedOf;
      PostKeepsInv(View(), kind, true);
      if Active(job.control) {
        TurnAway();
        return false, 0;
      }
      BeginJob(kind);
      Enqueue(if kind == FaultEvidence then REPORT_DIRECTORY else MANIFEST);
      return true, job.control.id;
    }

    // ----- serving the job -----

    /** The phase is written first. */
    method EndPhase(ok: bool)
      modifies this`job
      ensures job == old(job).(control := Ended(old(job.control), ok))
    {
      job := job.(control := Ended(job.control, ok));
    }

    /** Then the outcome, into the slot as it is by then, and all is published. */
    method WriteOutcome(error: u32, size: u32, isDir: bool, path: CString, pathHash: u32)
      modifies this`vector, this`job
      ensures Agrees() && vector == old(vector).(job := vector.job)
      ensures job == old(job).(error := error, size := size, isDir := isDir, path := path, pathHash := pathHash)
    {
      job := job.(error := error, size := size, isDir := isDir, path := path, pathHash := pathHash);
      Publish();
    }

    method Finish(ok: bool, error: u32, size: u32, isDir: bool, path: CString, pathHash: u32)
      modifies this`vector, this`job
      ensures Agrees() && vector == old(vector).(job := vector.job)
      ensures job == old(job).(control := Ended(old(job.control), ok), error := error, size := size, isDir := isDir, path := path,
                               pathHash := pathHash)
    {
      EndPhase(ok);
      WriteOutcome(error, size, isDir, path, pathHash);
    }

    /** A post by another task between the two finds the slot free. The job machine sees it as if it came after the end; but
        the outcome of the job that ended is then written over the one that was posted, which keeps its own path, and so is
        served for what was asked, if and only if that is the path of the job that ended. */
    method FinishAroundPost(ok: bool, error: u32, size: u32, isDir: bool, path: CString, pathHash: u32, request: Option<CString>)
      returns (accepted: bool, ghost asked: CString)
      requires AtRest() && Active(job.control)
      modifies this`vector, this`writes, this`job, this`nextJobId, this`attempts
      ensures AtRest() && Agrees()
      ensures accepted <==> request.Some? && Normalized(request.value, MAX_PATH_LEN + 1).Some?
      ensures View() == Posted(old(View().(control := Ended(job.control, ok))), FileInfo, accepted)
      ensures job.error == error && job.size == size && job.isDir == isDir && job.path == path && job.pathHash == pathHash
      ensures accepted ==> asked == Normalized(request.value, MAX_PATH_LEN + 1).value && (job.path == asked <==> path == asked)
    {
      hide Wired, Normalized, PathHash;
      EndPhase(ok);
      BeginJob(FileInfo);
      accepted := EnqueuePath(request);
      asked := job.path;
      WriteOutcome(error, size, isDir, path, pathHash);
    }

    /** A result tells truly whether the arbiter refused storage since `from`, and what a competing call left in the storage
        error if one wrote last; and storage has given back what it took. */
    ghost predicate Witnessed(from: Moment, r: Result)
      reads this`writes, arbiter`active, arbiter`calls
    {
      && Follows(from, At(false))
      && (r.refused <==> Refused(from, At(false))) && r.left == LeftBusy(from, At(false))
    }

    ghost function ResultSince(from: Moment, ok: bool, notFound: bool): Result
      reads this`writes, arbiter`active, arbiter`calls
    {
      Result(ok, Refused(from, At(false)), LeftBusy(from, At(false)), notFound)
    }

    /** The flag of a step is set; unless its result reads RESOURCE_BUSY, the job goes on to `next`. */
    method GoOn(flagged: Control, next: nat, ok: bool)
      requires Agrees()
      requires flagged.id == job.control.id && flagged.kind == job.control.kind && flagged.phase == job.control.phase
      modifies this`vector, this`job
      ensures Agrees() && vector == old(vector).(job := vector.job)
      ensures job == old(job).(control := flagged.(step := if ok || vector.error != ERROR_BUSY then next else flagged.step))
    {
      hide PublishedOf;
      FlagsAreUnpublished(job, job.(control := flagged));
      job := job.(control := flagged);
      if ok || vector.error != ERROR_BUSY {
        job := job.(control := job.control.(step := next));
        Publish();
      }
    }

    // ----- what comes of a request -----

    /** The lookup a job was posted for has found what its request names, and that is published. */
    ghost predicate FoundFor(op: Op, asked: Job)
      reads this`job, card`files, card`directories
    {
      && Some(job.path) == Normalized(asked.path, MAX_PATH_LEN + 1)
      && IsThere(op, job.path, asked.offset, if op == CatalogOp then asked.limit else asked.length, Found(job.size, job.isDir, job.bytes))
    }

    /** The job has done what it was asked to do, and published that. */
    ghost predicate Fulfilled(asked: Job, was: Files)
      reads this`vector, this`job, card`files, card`directories
    {
      && job.error == ERROR_NONE && job.pathHash == PathHash(job.path)
      && match asked.control.kind
         case FileInfo => FoundFor(InfoOp, asked)
         case FileRead => FoundFor(ReadOp, asked)
         case CatalogPage => FoundFor(CatalogOp, asked)
         case SnapshotWrite =>
           && SnapshotStored(was, vector.snapshot, asked.argument)
           && job.path == vector.snapshot.path && job.size == vector.snapshot.id
         case ManifestScan => ManifestIsSound()
         case SystemInit => ManifestIsSound()
         case FaultEvidence => job.path == vector.report.path && job.size == vector.report.id
         case NoJob => false
    }

    ghost predicate ManifestIsSound()
      reads this`vector, this`job, card`files
    {
      MANIFEST in card.files && vector.manifest == ManifestOk && job.path == MANIFEST && job.size == vector.required
    }

    /** The job has failed, and the error that stopped it is published; there is one unless a competing call has wiped it out. */
    ghost predicate Excused(asked: Job, left: Option<bool>)
      reads this`vector, this`job
    {
      match asked.control.kind
      case FileInfo => NotFound(asked, left, vector.error)
      case FileRead => NotFound(asked, left, vector.error)
      case CatalogPage => NotFound(asked, left, vector.error)
      case SnapshotWrite => NotFound(asked, left, if vector.snapshot.error != ERROR_NONE then vector.snapshot.error else vector.error)
      case ManifestScan => job.path == MANIFEST && job.error == ManifestCode(vector.manifest)
      case SystemInit => job.path == MANIFEST && job.error == if asked.control.ok0 then ManifestCode(vector.manifest) else vector.error
      case FaultEvidence => FirstError(job.control, vector, job.error)
      case NoJob => job.error == ERROR_PATH
    }

    ghost predicate NotFound(asked: Job, left: Option<bool>, error: u32)
      reads this`job
    {
      job.path == asked.path && job.size == 0 && job.error == error && (error == ERROR_NONE ==> left.Some?)
    }

    /** What a service call has made of the job `asked`: it goes on with the same request, or it has done what was asked, or it
        tells why not. */
    ghost predicate Answered(asked: Job, was: Files, left: Option<bool>)
      reads this`vector, this`job, card`files, card`directories
    {
      && (job.control.phase == Running ==> job == asked.(control := job.control))
      && (job.control.phase == Done ==> Fulfilled(asked, was))
      && (job.control.phase == Failed ==> Excused(asked, left))
    }

    method CompleteManifestScan(ok: bool, ghost was: Files, ghost left: Option<bool>)
      requires job.control.kind == ManifestScan || (job.control.kind == SystemInit && job.control.ok0)
      requires ok ==> MANIFEST in card.files && vector.manifest == ManifestOk
      modifies this`vector, this`job
      ensures Agrees() && vector == old(vector).(job := vector.job) && job.control == Ended(old(job.control), ok)
      ensures Answered(old(job), was, left)
    {
      hide PathHash, PublishedOf, ManifestCode;
      var error := if ok then ERROR_NONE else ManifestCode(vector.manifest);
      Finish(ok, error, vector.required, false, MANIFEST, PathHash(MANIFEST));
    }

    /** How a service call ends once its operation has come to `ok`: the job ends, unless it is tried again. */
    ghost predicate EndsUnlessBusy(c: Control, ok: bool)
      reads this`vector, this`job
    {
      job.control == if ok then Ended(c, true) else if vector.error != ERROR_BUSY then Ended(c, false) else c
    }

    method FinishFound(path: CString, found: Found, ghost was: Files, ghost left: Option<bool>)
      requires job.control.phase == Running && job.control.kind in {FileInfo, FileRead, CatalogPage}
      requires Some(path) == Normalized(job.path, MAX_PATH_LEN + 1) && IsThere(OpAt(job.control).value, path, job.offset, Extent(), found)
      modifies this`vector, this`job
      ensures Agrees() && vector == old(vector).(job := vector.job)
      ensures job.control == Ended(old(job.control), true) && Answered(old(job), was, left)
    {
      hide Normalized, PathHash, PublishedOf, IsThere, Answered, FoundFor;
      ghost var asked := job;
      job := job.(bytes := found.bytes);
      Finish(true, ERROR_NONE, found.size, found.isDir, path, PathHash(path));
      FoundNow(OpAt(asked.control).value, asked, found);
      LookUpAnswered(asked, was, left);
    }

    method FinishMissing(ghost was: Files, ghost left: Option<bool>)
      requires Agrees() && job.control.phase == Running && job.control.kind in {FileInfo, FileRead, CatalogPage}
      requires vector.error == ERROR_NONE ==> left.Some?
      modifies this`vector, this`job
      ensures Agrees() && vector == old(vector).(job := vector.job)
      ensures EndsUnlessBusy(old(job.control), false) && Answered(old(job), was, left)
    {
      hide PathHash, PublishedOf, Answered, FoundFor;
      ghost var asked := job;
      if vector.error != ERROR_BUSY {
        Finish(false, vector.error, 0, job.control.kind == CatalogPage, job.path, PathHash(job.path));
        LookUpAnswered(asked, was, left);
      } else {
        Unanswered(asked, was, left);
      }
    }

    lemma FoundNow(op: Op, asked: Job, found: Found)
      requires Some(job.path) == Normalized(asked.path, MAX_PATH_LEN + 1) && found == Found(job.size, job.isDir, job.bytes)
      requires IsThere(op, job.path, asked.offset, if op == CatalogOp then asked.limit else asked.length, found)
      ensures FoundFor(op, asked)
    {
      hide Normalized, IsThere;
    }

    lemma LookUpAnswered(asked: Job, was: Files, left: Option<bool>)
      requires asked.control.kind in {FileInfo, FileRead, CatalogPage} && job.control.phase in {Done, Failed}
      requires job.control.phase == Done ==>
                 job.error == ERROR_NONE && job.pathHash == PathHash(job.path) && FoundFor(OpAt(asked.control).value, asked)
      requires job.control.phase == Failed ==> NotFound(asked, left, vector.error)
      ensures Answered(asked, was, left)
    {
      hide PathHash, FoundFor, NotFound;
    }

    /** How much a lookup asks for: bytes of a file, or entries of a page. */
    function Extent(): u32
      reads this`job
    {
      if job.control.kind == CatalogPage then job.limit else job.length
    }

    /** File information, a range of a file, or a page of a catalog. */
    method ServeLookUp() returns (ghost r: Result)
      requires AtRest() && Agrees() && job.control.phase == Running && job.control.kind in {FileInfo, FileRead, CatalogPage}
      modifies this`vector, this`writes, this`job, this`attempts, arbiter, arbiter.owners
      ensures AtRest() && Agrees() && Sound(r) && View() == ServedBy(old(View()), r) && Witnessed(old(At(false)), r)
      ensures Answered(old(job), old(card.files), r.left)
    {
      hide Normalized, ServedBy, Served, Wired, Follows, Refused, Overtaken, Answered, PublishedOf, IsThere;
      ghost var from, view := At(false), View();
      var ok, path, found := LookUp(OpAt(job.control).value, Some(job.path), job.offset, Extent());
      r := ResultSince(from, ok, false);
      SingleStep(view, r);
      if ok {
        FinishFound(path, found, card.files, r.left);
      } else {
        FinishMissing(card.files, r.left);
      }
    }

    method FinishSnapshotJob(ok: bool, ghost was: Files, ghost left: Option<bool>)
      requires Agrees() && job.control.phase == Running && job.control.kind == SnapshotWrite
      requires ok ==> SnapshotStored(was, vector.snapshot, job.argument)
      requires !ok && vector.snapshot.error == ERROR_NONE ==> left.Some?
      modifies this`vector, this`job
      ensures Agrees() && vector == old(vector).(job := vector.job)
      ensures EndsUnlessBusy(old(job.control), ok) && Answered(old(job), was, left)
    {
      hide SnapshotStored, PathHash, PublishedOf;
      if ok {
        Finish(true, ERROR_NONE, vector.snapshot.id, false, vector.snapshot.path, PathHash(vector.snapshot.path));
      } else if vector.error != ERROR_BUSY {
        var error := if vector.snapshot.error != ERROR_NONE then vector.snapshot.error else vector.error;
        Finish(false, error, 0, false, job.path, PathHash(job.path));
      }
    }

    method ServeSnapshot() returns (ghost r: Result)
      requires AtRest() && Agrees() && job.control.phase == Running && job.control.kind == SnapshotWrite
      modifies this`vector, this`writes, this`job, this`attempts, card, arbiter, arbiter.owners
      ensures AtRest() && Agrees() && Sound(r) && View() == ServedBy(old(View()), r) && Witnessed(old(At(false)), r)
      ensures Answered(old(job), old(card.files), r.left)
      ensures Keeps(old(card.files), card.files)
    {
      hide SnapshotStored, PublishedOf, ServedBy, Served, Told, Wired, Follows, Refused, Overtaken, Keeps, Answered;
      ghost var from, view, was := At(false), View(), card.files;
      var ok := WriteSnapshot(job.argument);
      r := ResultSince(from, ok, false);
      SingleStep(view, r);
      WhyNot(vector.snapshot, vector, ok, Overtaken(from, At(false)));
      FinishSnapshotJob(ok, was, r.left);
    }

    /** No manifest could be made. */
    method GiveUpInit(ghost was: Files, ghost left: Option<bool>)
      requires job.control.kind == SystemInit && !job.control.ok0
      modifies this`vector, this`job
      ensures Agrees() && vector == old(vector).(job := vector.job) && job.control == Ended(old(job.control), false)
      ensures Answered(old(job), was, left)
    {
      hide PathHash, PublishedOf;
      Finish(false, vector.error, vector.required, false, MANIFEST, PathHash(MANIFEST));
    }

    /** Look for a manifest; when there is none, one is to be made. */
    method ServeFirstScan() returns (ghost r: Result)
      requires AtRest() && Agrees() && job.control.phase == Running && job.control.kind == ManifestScan && job.control.step == 0
      modifies this`vector, this`writes, this`job, this`attempts, arbiter, arbiter.owners
      ensures AtRest() && Agrees() && Sound(r) && View() == ServedBy(old(View()), r) && Witnessed(old(At(false)), r)
      ensures Answered(old(job), old(card.files), r.left)
    {
      hide ServedBy, Served, Wired, Follows, Refused, Overtaken, Answered;
      ghost var from, view := At(false), View();
      var ok := ScanManifest();
      r := ResultSince(from, ok, vector.manifest == ManifestNotFound);
      FirstScanStep(view, r);
      if !ok && vector.error == ERROR_BUSY {
        Unanswered(job, card.files, r.left);
        return;
      }
      if ok || vector.manifest != ManifestNotFound {
        CompleteManifestScan(ok, card.files, r.left);
      } else {
        ghost var asked := job;
        job := job.(control := job.control.(step := 1));
        Publish();
        Unanswered(asked, card.files, r.left);
      }
    }

    lemma Unanswered(asked: Job, was: Files, left: Option<bool>)
      requires job == asked.(control := job.control) && job.control.phase == Running
      ensures Answered(asked, was, left)
    {
    }

    /** Make the system pack; whatever comes of it, the job goes on to `next`. */
    method ServeInitialize(next: nat) returns (ghost r: Result)
      requires AtRest() && Agrees() && job.control.phase == Running
      requires (job.control.kind == ManifestScan && job.control.step == 1 && next == 2)
               || (job.control.kind == SystemInit && job.control.step == 0 && next == 1)
      modifies this`vector, this`writes, this`job, this`attempts, card, arbiter, arbiter.owners
      ensures AtRest() && Agrees() && Sound(r) && View() == ServedBy(old(View()), r) && Witnessed(old(At(false)), r)
      ensures Answered(old(job), old(card.files), r.left)
      ensures Keeps(old(card.files), card.files)
    {
      hide ServedBy, Served, PublishedOf, Wired, Follows, Refused, Overtaken, Keeps, Answered;
      ghost var from, view, asked, was := At(false), View(), job, card.files;
      var ok := InitializeSystemPack();
      r := ResultSince(from, ok, false);
      InitStep(view, r);
      GoOn(job.control.(ok0 := ok), next, ok);
      Unanswered(asked, was, r.left);
    }

    method ServeManifestScan() returns (ghost r: Result)
      requires AtRest() && Agrees() && job.control.phase == Running && job.control.kind == ManifestScan
      modifies this`vector, this`writes, this`job, this`attempts, card, arbiter, arbiter.owners
      ensures AtRest() && Agrees() && Sound(r) && View() == ServedBy(old(View()), r) && Witnessed(old(At(false)), r)
      ensures Answered(old(job), old(card.files), r.left)
      ensures Keeps(old(card.files), card.files)
    {
      hide ServedBy, Sound, Witnessed, Wired, Follows, Refused, Overtaken, Keeps;
      KeepsItself(card.files);
      if job.control.step == 0 {
        r := ServeFirstScan();
      } else if job.control.step == 1 {
        r := ServeInitialize(2);
      } else {
        r := ServeScanAfterInit();
      }
    }

    /** The scan that follows a successful initialisation; after a failed one nothing is run, but others may act. */
    method ServeScanAfterInit() returns (ghost r: Result)
      requires AtRest() && Agrees() && job.control.phase == Running
      requires (job.control.kind == ManifestScan && job.control.step > 1) || (job.control.kind == SystemInit && job.control.step > 0)
      modifies this`vector, this`writes, this`job, this`attempts, arbiter, arbiter.owners
      ensures AtRest() && Agrees() && Sound(r) && View() == ServedBy(old(View()), r) && Witnessed(old(At(false)), r)
      ensures Answered(old(job), old(card.files), r.left)
    {
      hide ServedBy, Served, Wired, Follows, Refused, Overtaken, Answered, PublishedOf;
      ghost var from, view := At(false), View();
      var ok := false;
      if job.control.ok0 {
        ok := ScanManifest();
        r := ResultSince(from, ok, vector.manifest == ManifestNotFound);
      } else {
        FollowsItself(from);
        OthersAct(false, from);
        r := ResultSince(from, false, false);
      }
      LastScanStep(view, r);
      if !ok && vector.error == ERROR_BUSY {
        Unanswered(job, card.files, r.left);
        return;
      }
      if job.control.kind == SystemInit && !ok && !job.control.ok0 {
        GiveUpInit(card.files, r.left);
      } else {
        CompleteManifestScan(ok, card.files, r.left);
      }
    }

    method ServeSystemInit() returns (ghost r: Result)
      requires AtRest() && Agrees() && job.control.phase == Running && job.control.kind == SystemInit
      modifies this`vector, this`writes, this`job, this`attempts, card, arbiter, arbiter.owners
      ensures AtRest() && Agrees() && Sound(r) && View() == ServedBy(old(View()), r) && Witnessed(old(At(false)), r)
      ensures Answered(old(job), old(card.files), r.left)
      ensures Keeps(old(card.files), card.files)
    {
      hide ServedBy, Sound, Witnessed, Wired, Follows, Refused, Overtaken, Keeps;
      KeepsItself(card.files);
      if job.control.step == 0 {
        r := ServeInitialize(1);
      } else {
        r := ServeScanAfterInit();
      }
    }

    lemma EvidenceAnswered(asked: Job, was: Files, left: Option<bool>)
      requires asked.control.kind == FaultEvidence && job.control.phase in {Done, Failed}
      requires job.control.phase == Done ==>
                 job.error == ERROR_NONE && job.pathHash == PathHash(job.path) && job.path == vector.report.path && job.size == vector.report.id
      requires job.control.phase == Failed ==> FirstError(job.control, vector, job.error)
      ensures Answered(asked, was, left)
    {
      hide PathHash, FirstError;
    }

    method CompleteFaultEvidence(ghost asked: Job, ghost was: Files, ghost left: Option<bool>)
      requires asked.control.kind == FaultEvidence && (job.control.ok2 ==> vector.report.path != "")
      modifies this`vector, this`job
      ensures Agrees() && vector == old(vector).(job := vector.job)
      ensures job.control == Ended(old(job.control), old(job.control.ok0 && job.control.ok1 && job.control.ok2))
      ensures Answered(asked, was, left)
    {
      hide PathHash, PublishedOf, EvidenceError, FirstError, Answered;
      var c := job.control;
      ghost var before := vector;
      var last := if vector.report.path != "" then vector.report else if vector.trace.path != "" then vector.trace else vector.snapshot;
      EvidenceErrorIsFirst(c, vector);
      Finish(c.ok0 && c.ok1 && c.ok2, EvidenceError(c, vector), vector.report.id, false, last.path, PathHash(last.path));
      if job.control.phase == Failed { FirstErrorOf(c, before, job.control, vector, job.error); }
      EvidenceAnswered(asked, was, left);
    }

    method ServeEvidenceSnapshot() returns (ghost r: Result)
      requires AtRest() && Agrees() && job.control.phase == Running && job.control.kind == FaultEvidence && job.control.step == 0
      requires EvidenceOnCard()
      modifies this`vector, this`writes, this`job, this`attempts, card, arbiter, arbiter.owners
      ensures AtRest() && Agrees() && Sound(r) && View() == ServedBy(old(View()), r) && Witnessed(old(At(false)), r)
      ensures Answered(old(job), old(card.files), r.left)
      ensures Keeps(old(card.files), card.files)
      ensures EvidenceOnCard() && (job.control.ok0 ==> SnapshotStored(old(card.files), vector.snapshot, FAULT))
    {
      hide ServedBy, Served, PublishedOf, Told, SnapshotStored, Wired, Follows, Refused, Overtaken, Keeps, Answered;
      ghost var from, view, asked, files := At(false), View(), job, card.files;
      var ok := WriteSnapshot(FAULT);
      r := ResultSince(from, ok, false);
      SnapshotStep(view, r);
      FiledStays(files);
      if ok { SnapshotIsFiled(files, vector.snapshot, FAULT); }
      GoOn(job.control.(ok0 := ok), 1, ok);
      Unanswered(asked, files, r.left);
    }

    method ServeEvidenceTrace(now: u32) returns (ghost r: Result)
      requires AtRest() && Agrees() && job.control.phase == Running && job.control.kind == FaultEvidence && job.control.step == 1
      requires EvidenceOnCard()
      modifies this`vector, this`writes, this`job, this`attempts, card, arbiter, arbiter.owners
      ensures AtRest() && Agrees() && Sound(r) && View() == ServedBy(old(View()), r) && Witnessed(old(At(false)), r)
      ensures Answered(old(job), old(card.files), r.left)
      ensures Keeps(old(card.files), card.files)
      ensures EvidenceOnCard() && (job.control.ok1 ==> TraceStored(old(card.files), vector.trace, FAULT, now))
    {
      hide ServedBy, Served, PublishedOf, Told, TraceStored, Wired, Follows, Refused, Overtaken, Keeps, Answered;
      ghost var from, view, asked, files := At(false), View(), job, card.files;
      var ok := WriteTrace(FAULT, now);
      r := ResultSince(from, ok, false);
      TraceStep(view, r);
      FiledStays(files);
      if ok { TraceIsFiled(files, vector.trace, FAULT, now); }
      GoOn(job.control.(ok1 := ok), 2, ok);
      Unanswered(asked, files, r.left);
    }

    method ServeEvidenceReport() returns (ghost r: Result)
      requires AtRest() && Agrees() && job.control.phase == Running && job.control.kind == FaultEvidence && job.control.step > 1
      requires EvidenceOnCard()
      modifies this`vector, this`writes, this`job, this`attempts, card, arbiter, arbiter.owners
      ensures AtRest() && Agrees() && Sound(r) && View() == ServedBy(old(View()), r) && Witnessed(old(At(false)), r)
      ensures Answered(old(job), old(card.files), r.left)
      ensures Keeps(old(card.files), card.files)
      ensures EvidenceOnCard() && (job.control.ok2 ==> Stored(old(card.files), vector.report, REPORT_DIRECTORY, PULSE_FAULT, JSON))
    {
      hide ServedBy, Served, PublishedOf, Told, Stored, Wired, Follows, Refused, Overtaken, Keeps, Answered;
      ghost var from, view, asked, files := At(false), View(), job, card.files;
      var ok := WriteFaultReport();
      r := ResultSince(from, ok, false);
      ReportStep(view, r);
      FiledStays(files);
      if ok { StoredIsFiled(files, vector.report, REPORT_DIRECTORY, PULSE_FAULT, JSON); }
      CloseEvidence(ok, files, r.left);
    }

    /** The last flag is set; unless its result reads RESOURCE_BUSY, the job ends. */
    method CloseEvidence(ok: bool, ghost was: Files, ghost left: Option<bool>)
      requires Agrees() && job.control.phase == Running && job.control.kind == FaultEvidence && (ok ==> vector.report.path != "")
      modifies this`vector, this`job
      ensures Agrees() && vector == old(vector).(job := vector.job) && Answered(old(job), was, left)
      ensures var c := old(job.control).(ok2 := ok);
              job.control == if ok || vector.error != ERROR_BUSY then Ended(c, c.ok0 && c.ok1 && c.ok2) else c
    {
      hide PublishedOf, Answered;
      ghost var asked := job;
      GoOn(job.control.(ok2 := ok), job.control.step, ok);
      if ok || vector.error != ERROR_BUSY {
        CompleteFaultEvidence(asked, was, left);
      } else {
        Unanswered(asked, was, left);
      }
    }

    lemma SnapshotIsFiled(was: Files, w: Written, kind: CString)
      requires SnapshotStored(was, w, kind)
      ensures Filed(w.path)
    {
    }

    lemma TraceIsFiled(was: Files, w: Written, kind: CString, now: u32)
      requires TraceStored(was, w, kind, now)
      ensures Filed(w.path)
    {
    }

    lemma StoredIsFiled(was: Files, w: Written, directory: CString, stem: CString, extension: CString)
      requires Stored(was, w, directory, stem, extension)
      ensures Filed(w.path) && w.path != ""
    {
    }

    lemma FiledStays(was: Files)
      requires Keeps(was, card.files)
      ensures forall p :: p in was && !Temporary(p) ==> Filed(p)
    {
    }

    method ServeFaultEvidence(now: u32) returns (ghost r: Result)
      requires AtRest() && Agrees() && job.control.phase == Running && job.control.kind == FaultEvidence
      requires EvidenceOnCard()
      modifies this`vector, this`writes, this`job, this`attempts, card, arbiter, arbiter.owners
      ensures AtRest() && Agrees() && Sound(r) && View() == ServedBy(old(View()), r) && Witnessed(old(At(false)), r)
      ensures Answered(old(job), old(card.files), r.left)
      ensures Keeps(old(card.files), card.files)
      ensures EvidenceOnCard()
    {
      hide ServedBy, Sound, Witnessed, SnapshotStored, TraceStored, Stored, EvidenceOnCard, Wired, Follows, Refused, Overtaken, Keeps;
      if job.control.step == 0 {
        r := ServeEvidenceSnapshot();
      } else if job.control.step == 1 {
        r := ServeEvidenceTrace(now);
      } else {
        r := ServeEvidenceReport();
      }
    }

    /** The work of a running job. */
    method ServeRunning(now: u32) returns (ghost r: Result)
      requires AtRest() && Agrees() && EvidenceOnCard() && job.control.phase == Running
      modifies this`vector, this`writes, this`job, this`attempts, card, arbiter, arbiter.owners
      ensures AtRest() && Agrees() && Sound(r) && View() == ServedBy(old(View()), r) && Witnessed(old(At(false)), r)
      ensures Answered(old(job), old(card.files), r.left)
      ensures Keeps(old(card.files), card.files)
      ensures EvidenceOnCard()
    {
      hide Wired, Follows, Refused, Overtaken, Keeps, Witnessed, Served, Filed;
      KeepsItself(card.files);
      FollowsItself(At(false));
      ghost var view, kind := View(), job.control.kind;
      match job.control.kind {
        case FileInfo => r := ServeLookUp();
        case FileRead => r := ServeLookUp();
        case CatalogPage => r := ServeLookUp();
        case SnapshotWrite => r := ServeSnapshot();
        case ManifestScan => r := ServeManifestScan();
        case SystemInit => r := ServeSystemInit();
        case FaultEvidence => r := ServeFaultEvidence(now);
        case NoJob => r := ServeNothing();
      }
      ServedKeepsKind(view, r);
      hide ServedBy;
    }

    method ServeNothing() returns (ghost r: Result)
      requires AtRest() && Agrees() && job.control.phase == Running && job.control.kind == NoJob
      modifies this`vector, this`writes, this`job, this`attempts, arbiter, arbiter.owners
      ensures AtRest() && Agrees() && Sound(r) && View() == ServedBy(old(View()), r) && Witnessed(old(At(false)), r)
      ensures Answered(old(job), old(card.files), r.left)
    {
      hide Wired, Follows, Refused, Overtaken;
      FollowsItself(At(false));
      r := Result(false, false, None, false);
      Finish(false, ERROR_PATH, job.size, job.isDir, job.path, job.pathHash);
    }

    /** A queued job runs from now on. */
    method Start()
      requires Agrees() && Active(job.control)
      modifies this`vector, this`job
      ensures Agrees() && vector == old(vector).(job := vector.job)
      ensures job == old(job).(control := old(job.control).(phase := Running))
    {
      if job.control.phase == Queued {
        job := job.(control := job.control.(phase := Running));
        Publish();
      }
    }

    /** One service call: a step of the job machine, whatever the card does, and whatever other tasks do before its result is
        tested. */
    method ServiceJob(now: u32) returns (ghost r: Result)
      requires Steady()
      modifies this`vector, this`writes, this`job, this`attempts, card, arbiter, arbiter.owners
      ensures Steady() && Sound(r) && View() == ServedBy(old(View()), r) && Witnessed(old(At(false)), r)
      ensures Active(old(job.control)) ==> Answered(old(job), old(card.files), r.left)
      ensures Keeps(old(card.files), card.files)
      ensures !Active(old(job.control)) ==> job == old(job) && vector == old(vector)
    {
      hide Wired, Follows, Refused, Overtaken, Keeps, Served, MachineInv;
      if job.control.phase != Queued && job.control.phase != Running {
        KeepsItself(card.files);
        FollowsItself(At(false));
        r := Result(false, false, None, false);
        return;
      }
      ghost var before := View();
      Start();
      QueuedServesAsRunning(before);
      hide EvidenceOnCard, Witnessed, Fulfilled, Excused;
      r := ServeRunning(now);
      ServedKeepsInv(before, r);
      ServedKeepsKind(before, r);
    }
  }

  lemma ServedKeepsInv(m: Machine, r: Result)
    requires MachineInv(m) && Sound(r)
    ensures MachineInv(ServedBy(m, r))
  {
    hide MachineInv;
    NextKeepsInv(m, Serving(r));
  }

  /** A service call keeps the kind of the job, and leaves it running or ended. */
  lemma ServedKeepsKind(m: Machine, r: Result)
    ensures ServedBy(m, r).control.kind == m.control.kind
    ensures Active(m.control) && Active(ServedBy(m, r).control) ==> ServedBy(m, r).control.phase == Running
  {
    hide Again, ReadsBusy, OpAt, AttemptOf;
    if Active(m.control) { ServedIsRunningOrEnded(m.control, m.busy, r); }
    hide Served;
  }

  /** The steps and flags of a job are not published. */
  lemma FlagsAreUnpublished(a: Job, b: Job)
    requires b == a.(control := b.control)
    requires b.control.id == a.control.id && b.control.kind == a.control.kind && b.control.phase == a.control.phase
    ensures PublishedOf(a) == PublishedOf(b)
  {
  }

  lemma IsDirIsUnpublished(j: Job)
    ensures PublishedOf(j.(isDir := true)) == PublishedOf(j)
  {
  }
}
