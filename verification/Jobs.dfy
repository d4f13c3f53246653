/** The one-slot job machine of the storage manager, seen apart from the card: which step a service call runs, what its
    result does to the job, and when it is tried again. */
module Jobs {
  import opened Outcomes
  import opened Bytes

  datatype Kind = NoJob | FileInfo | FileRead | CatalogPage | SnapshotWrite | ManifestScan | SystemInit | FaultEvidence

  datatype Phase = Idle | Queued | Running | Done | Failed

  datatype Control = Control(id: u32, kind: Kind, phase: Phase, step: nat, ok0: bool, ok1: bool, ok2: bool)

  const NO_CONTROL := Control(0, NoJob, Idle, 0, false, false, false)

  datatype Op = InfoOp | ReadOp | CatalogOp | SnapshotOp | TraceOp | ReportOp | ScanOp | InitOp

  /** What an operation came to. Refused: the arbiter turned down an acquire during this very call. Left: when the last
      write of the storage error before it is tested is that of a competing call, whether that was RESOURCE_BUSY. */
  datatype Result = Result(ok: bool, refused: bool, left: Option<bool>, notFound: bool)

  predicate Sound(r: Result) { (r.ok ==> !r.refused && !r.notFound) && !(r.refused && r.notFound) }

  /** Whether the storage error reads RESOURCE_BUSY when it is tested, `own` telling what storage itself left in it. */
  predicate ReadsBusy(own: bool, r: Result) { if r.left.Some? then r.left.value else own }

  /** How the job machine reads a result: a failure with RESOURCE_BUSY in the storage error is tried again. */
  predicate Again(r: Result) { !r.ok && ReadsBusy(r.refused, r) }

  /** A failure read for what it is not: as a refusal when the bus was granted, or the other way round. */
  predicate Misread(r: Result) { !r.ok && ReadsBusy(r.refused, r) != r.refused }

  predicate Active(c: Control) { c.phase == Queued || c.phase == Running }

  predicate Terminal(c: Control) { c.phase == Done || c.phase == Failed }

  /** The operation a service call runs, if any: the scan after a failed initialisation is skipped. */
  function OpAt(c: Control): Option<Op> {
    match c.kind
    case FileInfo => Some(InfoOp)
    case FileRead => Some(ReadOp)
    case CatalogPage => Some(CatalogOp)
    case SnapshotWrite => Some(SnapshotOp)
    case ManifestScan => if c.step == 0 then Some(ScanOp) else if c.step == 1 then Some(InitOp) else if c.ok0 then Some(ScanOp) else None
    case SystemInit => if c.step == 0 then Some(InitOp) else if c.ok0 then Some(ScanOp) else None
    case FaultEvidence => Some(if c.step == 0 then SnapshotOp else if c.step == 1 then TraceOp else ReportOp)
    case NoJob => None
  }

  function Ended(c: Control, ok: bool): Control { c.(phase := if ok then Done else Failed) }

  /** A service call, with `busy` telling whether the storage error read RESOURCE_BUSY before it. */
  function Served(c: Control, busy: bool, r: Result): Control {
    if !Active(c) then c
    else
      var d := c.(phase := Running);
      match c.kind
      case FileInfo => if Again(r) then d else Ended(d, r.ok)
      case FileRead => if Again(r) then d else Ended(d, r.ok)
      case CatalogPage => if Again(r) then d else Ended(d, r.ok)
      case SnapshotWrite => if Again(r) then d else Ended(d, r.ok)
      case ManifestScan =>
        if c.step == 0 then (if Again(r) then d else if r.ok || !r.notFound then Ended(d, r.ok) else d.(step := 1))
        else if c.step == 1 then (if Again(r) then d.(ok0 := false) else d.(ok0 := r.ok, step := 2))
        else if c.ok0 then (if Again(r) then d else Ended(d, r.ok))
        else if ReadsBusy(busy, r) then d else Ended(d, false)
      case SystemInit =>
        if c.step == 0 then (if Again(r) then d.(ok0 := false) else d.(ok0 := r.ok, step := 1))
        else if c.ok0 then (if Again(r) then d else Ended(d, r.ok))
        else if ReadsBusy(busy, r) then d else Ended(d, false)
      case FaultEvidence =>
        if c.step == 0 then (if Again(r) then d.(ok0 := false) else d.(ok0 := r.ok, step := 1))
        else if c.step == 1 then (if Again(r) then d.(ok1 := false) else d.(ok1 := r.ok, step := 2))
        else if Again(r) then d.(ok2 := false)
        else Ended(d.(ok2 := r.ok), c.ok0 && c.ok1 && r.ok)
      case NoJob => Ended(d, false)
  }

  lemma ServedIsRunningOrEnded(c: Control, busy: bool, r: Result)
    requires Active(c)
    ensures Served(c, busy, r).kind == c.kind && Served(c, busy, r).phase in {Running, Done, Failed}
  {
    hide Again, ReadsBusy;
  }

  // ----- the machine -----

  /** An operation that was tried: whether the arbiter refused it, whether the test read RESOURCE_BUSY, and its result. */
  datatype Attempt = Attempt(op: Op, refused: bool, busy: bool, ok: bool)

  function AttemptOf(op: Op, r: Result): Attempt { Attempt(op, r.refused, ReadsBusy(r.refused, r), r.ok) }

  /** The job slot, the next id, whether the storage error reads RESOURCE_BUSY, and what the job has tried so far. */
  datatype Machine = Machine(control: Control, nextId: u32, busy: bool, attempts: seq<Attempt>)

  const START := Machine(NO_CONTROL, 1, false, [])

  datatype Event =
    | Posting(kind: Kind, valid: bool)
    | Serving(result: Result)
    /** Anything else that may leave the storage error as RESOURCE_BUSY, or clear it. */
    | Disturbing(busy: bool)

  function NextId(id: u32): u32 { if Inc(id) == 0 then 1 else Inc(id) }

  /** An active job keeps the slot; otherwise the post takes it, even when the request turns out invalid. */
  function Posted(m: Machine, kind: Kind, valid: bool): Machine {
    if Active(m.control) then m.(busy := true)
    else Machine(Control(m.nextId, kind, if valid then Queued else Failed, 0, false, false, false), NextId(m.nextId),
                 if valid then m.busy else false, [])
  }

  function ServedBy(m: Machine, r: Result): Machine {
    if !Active(m.control) then m
    else
      var c := Served(m.control, m.busy, r);
      match OpAt(m.control)
      case Some(op) =>
        m.(control := c, busy := ReadsBusy(r.refused, r), attempts := m.attempts + [AttemptOf(op, r)])
      case None => m.(control := c, busy := ReadsBusy(m.busy, r))
  }

  /** A service call after which the job is as `c`. */
  function Tried(m: Machine, op: Op, r: Result, c: Control): Machine {
    m.(control := c, busy := ReadsBusy(r.refused, r), attempts := m.attempts + [AttemptOf(op, r)])
  }

  /** The first service call of a job is like any other. */
  lemma QueuedServesAsRunning(m: Machine)
    requires Active(m.control)
    ensures forall r :: ServedBy(m, r) == ServedBy(m.(control := m.control.(phase := Running)), r)
  {
  }

  /** The service calls that run one operation, spelled out. */
  lemma InitStep(m: Machine, r: Result)
    requires m.control.phase == Running && OpAt(m.control) == Some(InitOp) && Sound(r)
    ensures ServedBy(m, r) == Tried(m, InitOp, r, m.control.(ok0 := r.ok, step := if Again(r) then m.control.step else m.control.step + 1))
  {
  }

  lemma SingleStep(m: Machine, r: Result)
    requires m.control.phase == Running && m.control.kind in {FileInfo, FileRead, CatalogPage, SnapshotWrite} && Sound(r)
    ensures OpAt(m.control).Some?
    ensures ServedBy(m, r) == Tried(m, OpAt(m.control).value, r, if Again(r) then m.control else Ended(m.control, r.ok))
  {
  }

  lemma FirstScanStep(m: Machine, r: Result)
    requires m.control.phase == Running && m.control.kind == ManifestScan && m.control.step == 0 && Sound(r)
    ensures ServedBy(m, r) == Tried(m, ScanOp, r, if Again(r) then m.control else if r.ok || !r.notFound then Ended(m.control, r.ok)
                                                  else m.control.(step := 1))
  {
  }

  /** The scan that follows an initialisation is run, or nothing is. */
  lemma LastScanStep(m: Machine, r: Result)
    requires m.control.phase == Running && m.control.kind in {ManifestScan, SystemInit} && Sound(r)
    requires m.control.step >= LastStep(m.control.kind)
    ensures m.control.ok0 ==> ServedBy(m, r) == Tried(m, ScanOp, r, if Again(r) then m.control else Ended(m.control, r.ok))
    ensures !m.control.ok0 ==>
              ServedBy(m, r) == m.(control := if ReadsBusy(m.busy, r) then m.control else Ended(m.control, false), busy := ReadsBusy(m.busy, r))
  {
  }

  lemma SnapshotStep(m: Machine, r: Result)
    requires m.control.phase == Running && m.control.kind == FaultEvidence && OpAt(m.control) == Some(SnapshotOp) && Sound(r)
    ensures ServedBy(m, r) == Tried(m, SnapshotOp, r, m.control.(ok0 := r.ok, step := if Again(r) then 0 else 1))
  {
  }

  lemma TraceStep(m: Machine, r: Result)
    requires m.control.phase == Running && OpAt(m.control) == Some(TraceOp) && Sound(r)
    ensures ServedBy(m, r) == Tried(m, TraceOp, r, m.control.(ok1 := r.ok, step := if Again(r) then 1 else 2))
  {
  }

  lemma ReportStep(m: Machine, r: Result)
    requires m.control.phase == Running && OpAt(m.control) == Some(ReportOp) && Sound(r)
    ensures var c := m.control.(ok2 := r.ok);
            ServedBy(m, r) == Tried(m, ReportOp, r, if Again(r) then c else Ended(c, c.ok0 && c.ok1 && c.ok2))
  {
  }

  function Next(m: Machine, e: Event): Machine {
    match e
    case Posting(kind, valid) => Posted(m, kind, valid)
    case Serving(r) => ServedBy(m, r)
    case Disturbing(busy) => m.(busy := busy)
  }

  /** Scans, initialisations and evidence take no argument that could be invalid. */
  predicate Possible(e: Event) {
    match e
    case Posting(kind, valid) => kind != NoJob && (kind in {ManifestScan, SystemInit, FaultEvidence} ==> valid)
    case Serving(r) => Sound(r)
    case Disturbing(_) => true
  }

  ghost predicate AllPossible(events: seq<Event>) { forall i :: 0 <= i < |events| ==> Possible(events[i]) }

  function Run(m: Machine, events: seq<Event>): Machine
    decreases |events|
  {
    if events == [] then m else Run(Next(m, events[0]), events[1..])
  }

  // ----- what every run keeps -----

  /** An operation, and how it ended. */
  datatype Deed = Deed(op: Op, ok: bool)

  /** The attempts that were not refused. */
  function Granted(attempts: seq<Attempt>): seq<Deed> {
    if attempts == [] then []
    else
      var last := attempts[|attempts| - 1];
      Granted(attempts[..|attempts| - 1]) + if last.refused then [] else [Deed(last.op, last.ok)]
  }

  /** The attempts after which the job went on: those that succeeded or did not read RESOURCE_BUSY. */
  function Concluded(attempts: seq<Attempt>): seq<Deed> {
    if attempts == [] then []
    else
      var last := attempts[|attempts| - 1];
      Concluded(attempts[..|attempts| - 1]) + if !last.ok && last.busy then [] else [Deed(last.op, last.ok)]
  }

  /** Of one operation: the results it was granted, how many of them were repeated because the failure was read as a
      refusal, and how many refusals were lost because they were not read as one. */
  datatype Tally = Tally(granted: seq<bool>, repeated: nat, lost: nat)

  const UNTRIED := Tally([], 0, 0)

  function Counting(t: Tally, a: Attempt): Tally {
    Tally(t.granted + if a.refused then [] else [a.ok],
          t.repeated + if !a.refused && !a.ok && a.busy then 1 else 0,
          t.lost + if a.refused && !a.busy then 1 else 0)
  }

  function TallyOf(attempts: seq<Attempt>, op: Op): Tally {
    if attempts == [] then UNTRIED
    else
      var before, last := TallyOf(attempts[..|attempts| - 1], op), attempts[|attempts| - 1];
      if last.op == op then Counting(before, last) else before
  }

  function Evidence(c: Control): seq<Deed> {
    [Deed(SnapshotOp, c.ok0), Deed(TraceOp, c.ok1), Deed(ReportOp, c.ok2)]
  }

  function Deeds(op: Op, results: seq<bool>): seq<Deed> {
    seq(|results|, i requires 0 <= i < |results| => Deed(op, results[i]))
  }

  function LastStep(kind: Kind): nat {
    match kind case ManifestScan => 2 case SystemInit => 1 case FaultEvidence => 2 case _ => 0
  }

  predicate AllFailed(results: seq<bool>) { forall i :: 0 <= i < |results| ==> !results[i] }

  /** An operation not concluded: every failure it was granted has been repeated. */
  ghost predicate Trying(t: Tally) { AllFailed(t.granted) && |t.granted| == t.repeated && t.lost == 0 }

  /** An operation concluded with `ok`: the last result it was granted, unless a refusal was taken for a failure. */
  ghost predicate Carried(t: Tally, ok: bool) {
    && t.lost <= 1 && |t.granted| + t.lost == 1 + t.repeated
    && (t.lost == 1 ==> !ok && AllFailed(t.granted))
    && (t.lost == 0 ==> t.granted[|t.granted| - 1] == ok && AllFailed(t.granted[..|t.granted| - 1]))
  }

  /** What an evidence job has tried: its snapshot, its trace and its report, in that order, as far as it got. */
  ghost predicate EvidenceInv(m: Machine) {
    var c := m.control;
    c.kind == FaultEvidence ==>
      && InOrder(m.attempts)
      && if Active(c) then c.step <= 2 && Concluded(m.attempts) == Evidence(c)[..c.step] && Tallied(m.attempts, c, c.step)
         else Concluded(m.attempts) == Evidence(c) && Tallied(m.attempts, c, 3) && (c.phase == Done <==> c.ok0 && c.ok1 && c.ok2)
  }

  /** What was granted is granted snapshots, then traces, then reports. */
  ghost predicate InOrder(attempts: seq<Attempt>) {
    Granted(attempts) == Deeds(SnapshotOp, TallyOf(attempts, SnapshotOp).granted) + Deeds(TraceOp, TallyOf(attempts, TraceOp).granted)
                         + Deeds(ReportOp, TallyOf(attempts, ReportOp).granted)
  }

  /** The operations of the steps before `step` are concluded, that of `step` is being tried, the others are not. */
  ghost predicate Tallied(attempts: seq<Attempt>, c: Control, step: nat) {
    && Stands(TallyOf(attempts, SnapshotOp), c.ok0, 0, step)
    && Stands(TallyOf(attempts, TraceOp), c.ok1, 1, step)
    && Stands(TallyOf(attempts, ReportOp), c.ok2, 2, step)
  }

  ghost predicate Stands(t: Tally, ok: bool, of: nat, step: nat) {
    if of < step then Carried(t, ok) else if of == step then Trying(t) else t == UNTRIED
  }

  ghost predicate MachineInv(m: Machine) {
    && m.nextId != 0
    && m.control.step <= LastStep(m.control.kind)
    && (m.control.kind == NoJob <==> m.control.phase == Idle)
    && (m.control.kind != NoJob ==> m.control.id != 0)
    && EvidenceInv(m)
  }

  lemma StartInv()
    ensures MachineInv(START)
  {
  }

  lemma NextKeepsInv(m: Machine, e: Event)
    requires MachineInv(m) && Possible(e)
    ensures MachineInv(Next(m, e))
  {
    hide Granted;
    match e {
      case Posting(kind, valid) => PostKeepsInv(m, kind, valid);
      case Serving(r) =>
        if Active(m.control) {
          ServedShape(m.control, m.busy, r);
          if m.control.kind == FaultEvidence { ServedEvidence(m, r); }
        }
      case Disturbing(_) =>
    }
  }

  lemma PostKeepsInv(m: Machine, kind: Kind, valid: bool)
    requires MachineInv(m) && Possible(Posting(kind, valid))
    ensures MachineInv(Posted(m, kind, valid))
  {
    if !Active(m.control) {
      var c := Posted(m, kind, valid).control;
      assert Evidence(c)[..0] == [] && Granted([]) == [];
    }
  }

  /** A service call keeps the job's id and kind, and does not run past its last step. */
  lemma ServedShape(c: Control, busy: bool, r: Result)
    requires Active(c) && c.step <= LastStep(c.kind)
    ensures Shaped(c, Served(c, busy, r))
  {
    if LastStep(c.kind) > 0 { LongShape(c, busy, r); }
  }

  ghost predicate Shaped(c: Control, d: Control) {
    d.id == c.id && d.kind == c.kind && c.step <= d.step <= LastStep(c.kind) && d.phase in {Running, Done, Failed}
  }

  lemma LongShape(c: Control, busy: bool, r: Result)
    requires Active(c) && c.kind in {ManifestScan, SystemInit, FaultEvidence} && c.step <= LastStep(c.kind)
    ensures Shaped(c, Served(c, busy, r))
  {
  }

  lemma ServedEvidence(m: Machine, r: Result)
    requires Active(m.control) && m.control.kind == FaultEvidence && EvidenceInv(m) && Sound(r)
    ensures EvidenceInv(ServedBy(m, r))
  {
    hide Granted, Concluded, TallyOf, InOrder, Tallied, Served, Evidence;
    var c, d := m.control, Served(m.control, m.busy, r);
    var a := AttemptOf(OpAt(c).value, r);
    AttemptAppend(m.attempts, a);
    EvidenceStep(c, m.busy, r);
    OrderStep(m.attempts, c, a);
    TallyStep(m.attempts, c, d, a);
    assert Concluded(m.attempts) + [] == Concluded(m.attempts);
  }

  /** An evidence step: its flag is set, and the job goes on unless it reads RESOURCE_BUSY. */
  lemma EvidenceStep(c: Control, busy: bool, r: Result)
    requires Active(c) && c.kind == FaultEvidence && c.step <= 2 && Sound(r)
    ensures var d := Served(c, busy, r);
            && d.kind == FaultEvidence && Flags(c, d, r.ok)
            && (Again(r) ==> Active(d) && d.step == c.step && Evidence(d)[..d.step] == Evidence(c)[..c.step])
            && (!Again(r) ==> (if c.step < 2 then Active(d) && d.step == c.step + 1
                               else !Active(d) && (d.phase == Done <==> d.ok0 && d.ok1 && d.ok2))
                              && Evidence(d)[..c.step + 1] == Evidence(c)[..c.step] + [Deed(OpAt(c).value, r.ok)])
            && Evidence(d)[..3] == Evidence(d)
  {
    var d := Served(c, busy, r);
    assert c.step == 0 || c.step == 1 || c.step == 2;
    SameBefore(c, d);
    OneMore(c, d, r.ok);
    hide Evidence;
  }

  /** The flag of the step is set to the result, and those of the steps before it are as they were. */
  predicate Flags(c: Control, d: Control, ok: bool)
    requires c.step <= 2
  {
    && (c.step > 0 ==> c.ok0 == d.ok0) && (c.step > 1 ==> c.ok1 == d.ok1)
    && ok == if c.step == 0 then d.ok0 else if c.step == 1 then d.ok1 else d.ok2
  }

  /** The flag of a step says nothing of the steps before it. */
  lemma SameBefore(c: Control, d: Control)
    requires c.step <= 2 && (c.step > 0 ==> c.ok0 == d.ok0) && (c.step > 1 ==> c.ok1 == d.ok1)
    ensures Evidence(c)[..c.step] == Evidence(d)[..c.step]
    ensures Evidence(d)[..3] == Evidence(d)
  {
  }

  lemma OneMore(c: Control, d: Control, ok: bool)
    requires c.kind == FaultEvidence && c.step <= 2 && Flags(c, d, ok)
    ensures Evidence(d)[..c.step + 1] == Evidence(c)[..c.step] + [Deed(OpAt(c).value, ok)]
  {
  }

  lemma AttemptAppend(attempts: seq<Attempt>, a: Attempt)
    ensures Granted(attempts + [a]) == Granted(attempts) + if a.refused then [] else [Deed(a.op, a.ok)]
    ensures Concluded(attempts + [a]) == Concluded(attempts) + if !a.ok && a.busy then [] else [Deed(a.op, a.ok)]
  {
    assert (attempts + [a])[..|attempts|] == attempts;
  }

  lemma TallyAppend(attempts: seq<Attempt>, a: Attempt, op: Op)
    ensures TallyOf(attempts + [a], op) == if a.op == op then Counting(TallyOf(attempts, op), a) else TallyOf(attempts, op)
  {
    assert (attempts + [a])[..|attempts|] == attempts;
  }

  /** One more attempt leaves the operation being tried, or carries it. */
  lemma StandsNext(t: Tally, a: Attempt)
    requires Trying(t) && (a.ok ==> !a.refused)
    ensures if !a.ok && a.busy then Trying(Counting(t, a)) else Carried(Counting(t, a), a.ok)
  {
    var u := Counting(t, a);
    if !a.refused { assert u.granted[..|u.granted| - 1] == t.granted; }
  }

  lemma TallyStep(attempts: seq<Attempt>, c: Control, d: Control, a: Attempt)
    requires c.kind == FaultEvidence && c.step <= 2 && a.op == OpAt(c).value && (a.ok ==> !a.refused)
    requires Tallied(attempts, c, c.step) && Flags(c, d, a.ok)
    ensures Tallied(attempts + [a], d, if !a.ok && a.busy then c.step else c.step + 1)
  {
    hide TallyOf, Trying, Carried, Counting;
    TallyAppend(attempts, a, SnapshotOp);
    TallyAppend(attempts, a, TraceOp);
    TallyAppend(attempts, a, ReportOp);
    StandsNext(TallyOf(attempts, a.op), a);
    UntriedIsTrying();
  }

  lemma UntriedIsTrying()
    ensures Trying(UNTRIED)
  {
  }

  lemma DeedsAppend(op: Op, results: seq<bool>, ok: bool)
    ensures Deeds(op, results + [ok]) == Deeds(op, results) + [Deed(op, ok)]
    ensures results + [] == results && Deeds(op, []) == []
  {
  }

  lemma OrderStep(attempts: seq<Attempt>, c: Control, a: Attempt)
    requires c.kind == FaultEvidence && c.step <= 2 && a.op == OpAt(c).value
    requires InOrder(attempts) && Tallied(attempts, c, c.step)
    ensures InOrder(attempts + [a])
  {
    AttemptAppend(attempts, a);
    TallyAppend(attempts, a, SnapshotOp);
    TallyAppend(attempts, a, TraceOp);
    TallyAppend(attempts, a, ReportOp);
    DeedsAppend(a.op, TallyOf(attempts, a.op).granted, a.ok);
    DeedsAppend(TraceOp, [], a.ok);
    DeedsAppend(ReportOp, [], a.ok);
    hide Granted, TallyOf, Deeds, Trying, Carried;
  }

  lemma {:induction false} RunKeepsInv(m: Machine, events: seq<Event>)
    requires MachineInv(m) && AllPossible(events)
    ensures MachineInv(Run(m, events))
    decreases |events|
  {
    hide MachineInv, Next, Possible;
    if events != [] {
      NextKeepsInv(m, events[0]);
      RunKeepsInv(Next(m, events[0]), events[1..]);
    }
  }

  /** Over every run from the start: an id is never 0, and an evidence job that has ended went on from its snapshot, then
      from its trace, then from its report, once each, and is done exactly when the three results it went on with are
      successes. What it was granted comes in that order too. */
  lemma EvidenceInOrder(events: seq<Event>)
    requires AllPossible(events)
    ensures var m := Run(START, events);
            && (m.control.kind != NoJob ==> m.control.id != 0)
            && (m.control.kind == FaultEvidence && Terminal(m.control) ==>
                  && Concluded(m.attempts) == Evidence(m.control) && InOrder(m.attempts)
                  && (m.control.phase == Done <==> m.control.ok0 && m.control.ok1 && m.control.ok2))
  {
    StartInv();
    RunKeepsInv(START, events);
  }

  /** As often as failures of the operation were taken for refusals, refusals were taken for failures. */
  predicate Balanced(t: Tally) { t.repeated == t.lost }

  /** Each operation of an ended evidence job is carried out once, and once more for each of its failures taken for a
      refusal, and once less if a refusal was taken for a failure; so the job carried out its three operations exactly once
      each, with the results it went on with, if and only if these are equally many for each operation. */
  lemma EvidenceExactlyOnceIff(events: seq<Event>)
    requires AllPossible(events)
    ensures var m := Run(START, events);
            var s, t, r := TallyOf(m.attempts, SnapshotOp), TallyOf(m.attempts, TraceOp), TallyOf(m.attempts, ReportOp);
            m.control.kind == FaultEvidence && Terminal(m.control) ==>
              && |s.granted| + s.lost == 1 + s.repeated && |t.granted| + t.lost == 1 + t.repeated
              && |r.granted| + r.lost == 1 + r.repeated
              && (Granted(m.attempts) == Evidence(m.control) <==> Balanced(s) && Balanced(t) && Balanced(r))
  {
    hide Granted, Concluded, TallyOf, Evidence;
    StartInv();
    RunKeepsInv(START, events);
    var m := Run(START, events);
    if m.control.kind == FaultEvidence && Terminal(m.control) {
      OnceIff(m.control, TallyOf(m.attempts, SnapshotOp), TallyOf(m.attempts, TraceOp), TallyOf(m.attempts, ReportOp));
    }
  }

  /** A carried operation was granted exactly the result it ended with if and only if it is balanced. */
  lemma CarriedOnceIff(t: Tally, ok: bool)
    requires Carried(t, ok)
    ensures t.granted == [ok] <==> Balanced(t)
  {
  }

  lemma OnceIff(c: Control, s: Tally, t: Tally, r: Tally)
    requires Carried(s, c.ok0) && Carried(t, c.ok1) && Carried(r, c.ok2)
    ensures Deeds(SnapshotOp, s.granted) + Deeds(TraceOp, t.granted) + Deeds(ReportOp, r.granted) == Evidence(c)
       <==> Balanced(s) && Balanced(t) && Balanced(r)
  {
    CarriedOnceIff(s, c.ok0);
    CarriedOnceIff(t, c.ok1);
    CarriedOnceIff(r, c.ok2);
    hide Carried;
    JoinedOnceIff(c, s.granted, t.granted, r.granted);
  }

  lemma JoinedOnceIff(c: Control, s: seq<bool>, t: seq<bool>, r: seq<bool>)
    ensures Deeds(SnapshotOp, s) + Deeds(TraceOp, t) + Deeds(ReportOp, r) == Evidence(c)
       <==> s == [c.ok0] && t == [c.ok1] && r == [c.ok2]
  {
    var all := Deeds(SnapshotOp, s) + Deeds(TraceOp, t) + Deeds(ReportOp, r);
    assert forall i :: 0 <= i < |s| ==> all[i] == Deed(SnapshotOp, s[i]);
    assert forall i :: 0 <= i < |t| ==> all[|s| + i] == Deed(TraceOp, t[i]);
    assert forall i :: 0 <= i < |r| ==> all[|s| + |t| + i] == Deed(ReportOp, r[i]);
    if all == Evidence(c) {
      assert all[0] == Deed(SnapshotOp, c.ok0) && all[1] == Deed(TraceOp, c.ok1) && all[2] == Deed(ReportOp, c.ok2);
      BlocksOfOne(all, |s|, |t|, |r|);
    }
  }

  /** Three blocks of operations with one of each. */
  lemma BlocksOfOne(all: seq<Deed>, a: nat, b: nat, c: nat)
    requires |all| == 3 == a + b + c
    requires all[0].op == SnapshotOp && all[1].op == TraceOp && all[2].op == ReportOp
    requires forall i :: 0 <= i < a ==> all[i].op == SnapshotOp
    requires forall i :: a <= i < a + b ==> all[i].op == TraceOp
    requires forall i :: a + b <= i < 3 ==> all[i].op == ReportOp
    ensures a == b == c == 1
  {
    assert a <= 1 && (a == 0 ==> b == 0);
  }

  ghost predicate NoneMisread(events: seq<Event>) {
    forall i :: 0 <= i < |events| && events[i].Serving? ==> !Misread(events[i].result)
  }

  /** No refusal lost and no failure repeated, and so everything granted is concluded. */
  ghost predicate ReadRight(attempts: seq<Attempt>) {
    forall i :: 0 <= i < |attempts| && !attempts[i].ok ==> attempts[i].busy == attempts[i].refused
  }

  lemma {:induction false} GrantedIsConcluded(attempts: seq<Attempt>)
    requires ReadRight(attempts) && forall i :: 0 <= i < |attempts| && attempts[i].ok ==> !attempts[i].refused
    ensures Granted(attempts) == Concluded(attempts)
  {
    if attempts != [] {
      GrantedIsConcluded(attempts[..|attempts| - 1]);
    }
  }

  ghost predicate AttemptsSound(attempts: seq<Attempt>) {
    forall i :: 0 <= i < |attempts| && attempts[i].ok ==> !attempts[i].refused
  }

  lemma ReadRightNext(m: Machine, e: Event)
    requires ReadRight(m.attempts) && AttemptsSound(m.attempts) && Possible(e) && (e.Serving? ==> !Misread(e.result))
    ensures ReadRight(Next(m, e).attempts) && AttemptsSound(Next(m, e).attempts)
  {
    hide Served, Active, OpAt;
  }

  lemma {:induction false} RunReadsRight(m: Machine, events: seq<Event>)
    requires NoneMisread(events) && AllPossible(events) && ReadRight(m.attempts) && AttemptsSound(m.attempts)
    ensures ReadRight(Run(m, events).attempts) && AttemptsSound(Run(m, events).attempts)
    decreases |events|
  {
    hide Next, ReadRight, AttemptsSound, Possible, Misread;
    if events != [] {
      ReadRightNext(m, events[0]);
      RunReadsRight(Next(m, events[0]), events[1..]);
    }
  }

  /** So exactly once whenever no result is misread, as when no competing call writes the storage error between an
      operation's last write of it and its test. */
  lemma EvidenceExactlyOnce(events: seq<Event>)
    requires AllPossible(events) && NoneMisread(events)
    ensures var m := Run(START, events);
            m.control.kind == FaultEvidence && Terminal(m.control) ==> Granted(m.attempts) == Evidence(m.control)
  {
    hide Granted, Concluded, Evidence;
    EvidenceInOrder(events);
    RunReadsRight(START, events);
    GrantedIsConcluded(Run(START, events).attempts);
  }

  // ----- the order of every other job -----

  /** What a job with a single operation has concluded. */
  ghost predicate OneDeed(c: Control, op: Op, deeds: seq<Deed>) {
    deeds == if Active(c) then [] else [Deed(op, c.phase == Done)]
  }

  /** One initialisation, and one scan if it succeeded. */
  ghost predicate InitDeeds(c: Control, active: bool, deeds: seq<Deed>) {
    if active then deeds == [Deed(InitOp, c.ok0)]
    else deeds == [Deed(InitOp, c.ok0)] + (if c.ok0 then [Deed(ScanOp, c.phase == Done)] else []) && (!c.ok0 ==> c.phase == Failed)
  }

  /** A scan; if it finds no manifest, an initialisation, and a second scan if that succeeded. */
  ghost predicate ScanDeeds(c: Control, deeds: seq<Deed>) {
    if Active(c) then
      if c.step == 0 then deeds == [] else if c.step == 1 then deeds == [Deed(ScanOp, false)]
      else |deeds| > 0 && deeds[0] == Deed(ScanOp, false) && InitDeeds(c, true, deeds[1..])
    else
      deeds == [Deed(ScanOp, c.phase == Done)] || (|deeds| > 0 && deeds[0] == Deed(ScanOp, false) && InitDeeds(c, false, deeds[1..]))
  }

  ghost predicate DeedsInOrder(c: Control, deeds: seq<Deed>) {
    match c.kind
    case FileInfo => OneDeed(c, InfoOp, deeds)
    case FileRead => OneDeed(c, ReadOp, deeds)
    case CatalogPage => OneDeed(c, CatalogOp, deeds)
    case SnapshotWrite => OneDeed(c, SnapshotOp, deeds)
    case ManifestScan => ScanDeeds(c, deeds)
    case SystemInit => if Active(c) && c.step == 0 then deeds == [] else InitDeeds(c, Active(c), deeds)
    case FaultEvidence => true
    case NoJob => !Active(c)
  }

  /** A job whose request was refused when it was posted has failed without trying anything. */
  ghost predicate DeedsInv(m: Machine) {
    && m.control.step <= LastStep(m.control.kind)
    && ((m.attempts == [] && m.control.phase in {Idle, Failed}) || DeedsInOrder(m.control, Concluded(m.attempts)))
  }

  lemma SingleKeepsDeeds(m: Machine, r: Result)
    requires DeedsInv(m) && m.control.phase == Running && m.control.kind in {FileInfo, FileRead, CatalogPage, SnapshotWrite} && Sound(r)
    ensures DeedsInv(ServedBy(m, r))
  {
    SingleStep(m, r);
    AttemptAppend(m.attempts, AttemptOf(OpAt(m.control).value, r));
    hide Concluded, ServedBy;
    assert [] + [Deed(OpAt(m.control).value, r.ok)] == [Deed(OpAt(m.control).value, r.ok)];
  }

  lemma InitKeepsDeeds(m: Machine, r: Result)
    requires DeedsInv(m) && m.control.phase == Running && m.control.kind in {ManifestScan, SystemInit} && OpAt(m.control) == Some(InitOp)
    requires Sound(r)
    ensures DeedsInv(ServedBy(m, r))
  {
    InitStep(m, r);
    AttemptAppend(m.attempts, AttemptOf(InitOp, r));
    hide Concluded, ServedBy;
    var deeds := Concluded(m.attempts);
    assert deeds + [] == deeds && [] + [Deed(InitOp, r.ok)] == [Deed(InitOp, r.ok)];
    assert m.control.kind == ManifestScan ==> (deeds + [Deed(InitOp, r.ok)])[1..] == [Deed(InitOp, r.ok)];
  }

  lemma FirstScanKeepsDeeds(m: Machine, r: Result)
    requires DeedsInv(m) && m.control.phase == Running && m.control.kind == ManifestScan && m.control.step == 0 && Sound(r)
    ensures DeedsInv(ServedBy(m, r))
  {
    FirstScanStep(m, r);
    AttemptAppend(m.attempts, AttemptOf(ScanOp, r));
    hide Concluded, ServedBy;
    assert [] + [Deed(ScanOp, r.ok)] == [Deed(ScanOp, r.ok)];
  }

  /** The last scan, or nothing, after the initialisation. */
  lemma LastDeeds(c: Control, d: Control, deeds: seq<Deed>, ok: bool)
    requires InitDeeds(c, true, deeds) && d == Ended(c, ok) && (!c.ok0 ==> !ok)
    ensures InitDeeds(d, false, deeds + if c.ok0 then [Deed(ScanOp, ok)] else [])
  {
  }

  lemma LastScanConcludes(m: Machine, r: Result)
    requires m.control.phase == Running && m.control.kind in {ManifestScan, SystemInit} && Sound(r)
    requires m.control.step == LastStep(m.control.kind)
    ensures var c, d := m.control, ServedBy(m, r).control;
            var more := if c.ok0 && d != c then [Deed(ScanOp, r.ok)] else [];
            && d in {c, Ended(c, c.ok0 && r.ok)}
            && Concluded(ServedBy(m, r).attempts) == Concluded(m.attempts) + more
  {
    LastScanStep(m, r);
    AttemptAppend(m.attempts, AttemptOf(ScanOp, r));
    hide Concluded, ServedBy;
  }

  lemma LastScanKeepsDeeds(m: Machine, r: Result)
    requires DeedsInv(m) && m.control.phase == Running && m.control.kind in {ManifestScan, SystemInit} && Sound(r)
    requires m.control.step == LastStep(m.control.kind)
    ensures DeedsInv(ServedBy(m, r))
  {
    LastScanConcludes(m, r);
    hide Concluded, ServedBy, InitDeeds;
    var c, d, deeds := m.control, ServedBy(m, r).control, Concluded(m.attempts);
    assert deeds + [] == deeds;
    if d != c {
      LastDeedsInOrder(c, d, deeds, c.ok0 && r.ok);
    }
  }

  lemma LastDeedsInOrder(c: Control, d: Control, deeds: seq<Deed>, ok: bool)
    requires DeedsInOrder(c, deeds) && Active(c) && c.kind in {ManifestScan, SystemInit} && c.step == LastStep(c.kind)
    requires d == Ended(c, ok) && (!c.ok0 ==> !ok)
    ensures DeedsInOrder(d, deeds + if c.ok0 then [Deed(ScanOp, ok)] else [])
  {
    hide InitDeeds;
    var more := if c.ok0 then [Deed(ScanOp, ok)] else [];
    if c.kind == ManifestScan {
      LastDeeds(c, d, deeds[1..], ok);
      assert (deeds + more)[1..] == deeds[1..] + more;
    } else {
      LastDeeds(c, d, deeds, ok);
    }
  }

  lemma RunningKeepsDeeds(m: Machine, r: Result)
    requires DeedsInv(m) && m.control.phase == Running && Sound(r)
    ensures DeedsInv(ServedBy(m, r))
  {
    var c := m.control;
    if c.kind in {FileInfo, FileRead, CatalogPage, SnapshotWrite} {
      SingleKeepsDeeds(m, r);
    } else if c.kind in {ManifestScan, SystemInit} {
      if OpAt(c) == Some(InitOp) {
        InitKeepsDeeds(m, r);
      } else if c.kind == ManifestScan && c.step == 0 {
        FirstScanKeepsDeeds(m, r);
      } else {
        LastScanKeepsDeeds(m, r);
      }
    } else if c.kind == FaultEvidence {
      ServedShape(c, m.busy, r);
    }
  }

  lemma NextKeepsDeeds(m: Machine, e: Event)
    requires DeedsInv(m) && Possible(e)
    ensures DeedsInv(Next(m, e))
  {
    match e {
      case Posting(kind, valid) => assert Concluded([]) == [];
      case Serving(r) =>
        if Active(m.control) {
          QueuedServesAsRunning(m);
          var running := m.(control := m.control.(phase := Running));
          hide ServedBy, Concluded;
          RunningKeepsDeeds(running, r);
        }
      case Disturbing(_) =>
    }
  }

  lemma {:induction false} RunKeepsDeeds(m: Machine, events: seq<Event>)
    requires DeedsInv(m) && AllPossible(events)
    ensures DeedsInv(Run(m, events))
    decreases |events|
  {
    hide DeedsInv, Next, Possible;
    if events != [] {
      NextKeepsDeeds(m, events[0]);
      RunKeepsDeeds(Next(m, events[0]), events[1..]);
    }
  }

  /** Over every run: a job that is no evidence job and has ended, its request not being refused at once, went on from exactly
      the operations its kind calls for, in order: one lookup or snapshot; one initialisation, and one scan if it
      succeeded; one scan, and only if that failed an initialisation and a second scan if it succeeded. It is done exactly
      when the last operation it could go on to has succeeded. */
  lemma JobsInOrder(events: seq<Event>)
    requires AllPossible(events)
    ensures var m := Run(START, events);
            Terminal(m.control) && m.attempts != [] ==>
              && DeedsInOrder(m.control, Concluded(m.attempts))
              && (m.control.kind != FaultEvidence ==>
                    Concluded(m.attempts) != [] && (m.control.phase == Done <==> Concluded(m.attempts)[|Concluded(m.attempts)| - 1].ok))
    ensures var m := Run(START, events); m.attempts == [] && Terminal(m.control) ==> m.control.phase == Failed
  {
    RunKeepsDeeds(START, events);
    var m := Run(START, events);
    hide Run;
    RunKeepsInv(START, events);
    if Terminal(m.control) && m.attempts != [] { LastDeed(m.control, Concluded(m.attempts)); }
    if m.attempts == [] && Terminal(m.control) { assert Concluded([]) == []; }
  }

  lemma LastDeed(c: Control, deeds: seq<Deed>)
    requires DeedsInOrder(c, deeds) && Terminal(c)
    ensures c.kind != FaultEvidence && c.kind != NoJob ==> deeds != [] && (c.phase == Done <==> deeds[|deeds| - 1].ok)
  {
  }

  // ----- the runs that fail -----

  lemma RunStep(m: Machine, e: Event, events: seq<Event>, next: Machine)
    requires Next(m, e) == next
    ensures Run(m, [e] + events) == Run(next, events)
    ensures events == [] ==> Run(m, [e]) == next
  {
    hide Next;
    assert ([e] + events)[1..] == events && [e] + [] == [e];
  }

  /** The first evidence job after power-up, on its way. */
  function FirstJob(c: Control, busy: bool, attempts: seq<Attempt>): Machine { Machine(c, 2, busy, attempts) }

  const QUEUED_JOB := Control(1, FaultEvidence, Queued, 0, false, false, false)

  const SUCCESS := Result(true, false, None, false)

  lemma PostFirstJob()
    ensures Next(START, Posting(FaultEvidence, true)) == FirstJob(QUEUED_JOB, false, [])
  {
  }

  lemma ServeQueuedJob(r: Result)
    requires Sound(r)
    ensures Next(FirstJob(QUEUED_JOB, false, []), Serving(r))
         == FirstJob(QUEUED_JOB.(phase := Running, ok0 := r.ok, step := if Again(r) then 0 else 1), ReadsBusy(r.refused, r),
                     [AttemptOf(SnapshotOp, r)])
  {
  }

  function Succeeded(c: Control): Control {
    if c.step == 0 then c.(ok0 := true, step := 1)
    else if c.step == 1 then c.(ok1 := true, step := 2)
    else Ended(c.(ok2 := true), c.ok0 && c.ok1)
  }

  /** From any evidence job in its first, second or third step, the rest without trouble. */
  lemma ServeRunningJob(m: Machine)
    requires m.control.kind == FaultEvidence && m.control.phase == Running && m.control.step <= 2
    ensures Next(m, Serving(SUCCESS))
         == Machine(Succeeded(m.control), m.nextId, false, m.attempts + [Attempt(OpAt(m.control).value, false, false, true)])
  {
    if m.control.step == 0 { SnapshotStep(m, SUCCESS); }
    else if m.control.step == 1 { TraceStep(m, SUCCESS); }
    else { ReportStep(m, SUCCESS); }
  }

  lemma GrantedOfThree(a: Attempt, b: Attempt, c: Attempt)
    ensures Granted([a, b, c]) == (if a.refused then [] else [Deed(a.op, a.ok)]) + (if b.refused then [] else [Deed(b.op, b.ok)])
                                  + (if c.refused then [] else [Deed(c.op, c.ok)])
  {
    assert Granted([]) == [];
    AttemptAppend([], a);
    AttemptAppend([a], b);
    AttemptAppend([a, b], c);
    hide Granted;
    assert [] + [a] == [a] && [a] + [b] == [a, b] && [a, b] + [c] == [a, b, c];
  }

  const REPEATED_RUN := [Posting(FaultEvidence, true), Serving(Result(false, false, Some(true), false)),
                         Serving(SUCCESS), Serving(SUCCESS), Serving(SUCCESS)]

  /** A snapshot the card turns down is made twice: a post that came between left RESOURCE_BUSY. */
  lemma SnapshotIsMadeTwice()
    ensures var m := Run(START, REPEATED_RUN);
            m.control.phase == Done
            && Granted(m.attempts) == [Deed(SnapshotOp, false), Deed(SnapshotOp, true), Deed(TraceOp, true), Deed(ReportOp, true)]
  {
    hide Next, Run, Granted;
    var failure, e := Result(false, false, Some(true), false), Serving(SUCCESS);
    var a, b, c, d := Attempt(SnapshotOp, false, true, false), Attempt(SnapshotOp, false, false, true),
      Attempt(TraceOp, false, false, true), Attempt(ReportOp, false, false, true);
    var c2 := QUEUED_JOB.(phase := Running);
    var m2, m3 := FirstJob(c2, true, [a]), FirstJob(c2.(ok0 := true, step := 1), false, [a, b]);
    var m4 := FirstJob(c2.(ok0 := true, ok1 := true, step := 2), false, [a, b, c]);
    var m5 := FirstJob(c2.(ok0 := true, ok1 := true, ok2 := true, step := 2, phase := Done), false, [a, b, c, d]);
    PostFirstJob();
    ServeQueuedJob(failure);
    ServeRunningJob(m2);
    ServeRunningJob(m3);
    ServeRunningJob(m4);
    assert [a] + [b] == [a, b] && [a, b] + [c] == [a, b, c] && [a, b, c] + [d] == [a, b, c, d];
    RunStep(START, Posting(FaultEvidence, true), [Serving(failure), e, e, e], FirstJob(QUEUED_JOB, false, []));
    RunStep(FirstJob(QUEUED_JOB, false, []), Serving(failure), [e, e, e], m2);
    RunStep(m2, e, [e, e], m3);
    RunStep(m3, e, [e], m4);
    RunStep(m4, e, [], m5);
    ListOfFive(Posting(FaultEvidence, true), Serving(failure), e);
    GrantedOfThree(a, b, c);
    AttemptAppend([a, b, c], d);
  }

  lemma ListOfFive(x: Event, y: Event, e: Event)
    ensures [x] + [y, e, e, e] == [x, y, e, e, e] && [y] + [e, e, e] == [y, e, e, e] && [e] + [e, e] == [e, e, e] && [e] + [e] == [e, e]
  {
  }

  const LOST_RUN := [Posting(FaultEvidence, true), Serving(Result(false, true, Some(false), false)),
                     Serving(SUCCESS), Serving(SUCCESS)]

  /** A snapshot refused the bus is never made: a probe that came between cleared RESOURCE_BUSY. */
  lemma SnapshotIsLost()
    ensures var m := Run(START, LOST_RUN);
            m.control.phase == Failed && Granted(m.attempts) == [Deed(TraceOp, true), Deed(ReportOp, true)]
  {
    hide Next, Run, Granted;
    var refusal, e := Result(false, true, Some(false), false), Serving(SUCCESS);
    var a, b, c := Attempt(SnapshotOp, true, false, false), Attempt(TraceOp, false, false, true), Attempt(ReportOp, false, false, true);
    var c2 := QUEUED_JOB.(phase := Running, step := 1);
    var m2, m3 := FirstJob(c2, false, [a]), FirstJob(c2.(ok1 := true, step := 2), false, [a, b]);
    var m4 := FirstJob(c2.(ok1 := true, ok2 := true, step := 2, phase := Failed), false, [a, b, c]);
    PostFirstJob();
    ServeQueuedJob(refusal);
    ServeRunningJob(m2);
    ServeRunningJob(m3);
    assert [a] + [b] == [a, b] && [a, b] + [c] == [a, b, c];
    RunStep(START, Posting(FaultEvidence, true), [Serving(refusal), e, e], FirstJob(QUEUED_JOB, false, []));
    RunStep(FirstJob(QUEUED_JOB, false, []), Serving(refusal), [e, e], m2);
    RunStep(m2, e, [e], m3);
    RunStep(m3, e, [], m4);
    ListOfFive(Posting(FaultEvidence, true), Serving(refusal), e);
    assert [Posting(FaultEvidence, true)] + [Serving(refusal), e, e] == LOST_RUN && [Serving(refusal)] + [e, e] == [Serving(refusal), e, e];
    GrantedOfThree(a, b, c);
  }

  /** Nor is a missing manifest made as long as every test of the scan that misses it reads RESOURCE_BUSY. */
  lemma {:induction false} MissingManifestIsMisread(m: Machine, events: seq<Event>)
    requires m.control.phase == Running && m.control.kind == ManifestScan && m.control.step == 0
    requires forall i :: 0 <= i < |events| ==> events[i] == Serving(Result(false, false, Some(true), true))
    ensures Run(m, events).control == m.control
    decreases |events|
  {
    if events != [] {
      MissingManifestIsMisread(Next(m, events[0]), events[1..]);
    }
  }

  // ----- one job at a time -----

  /** Whatever is posted while a job is active, and whatever else disturbs the storage error: the job, what it has tried and
      the ids stay as they are until it is served. */
  lemma {:induction false} ActiveNeverOverwritten(m: Machine, events: seq<Event>)
    requires Active(m.control) && forall i :: 0 <= i < |events| ==> !events[i].Serving?
    ensures Run(m, events) == m.(busy := Run(m, events).busy)
    decreases |events|
  {
    if events != [] {
      ActiveNeverOverwritten(Next(m, events[0]), events[1..]);
    }
  }

  /** A finished job stays as it is until the next post is taken. */
  lemma {:induction false} TerminalIsStable(m: Machine, events: seq<Event>)
    requires !Active(m.control)
    requires forall i :: 0 <= i < |events| ==> !events[i].Posting?
    ensures Run(m, events).control == m.control && Run(m, events).attempts == m.attempts
    decreases |events|
  {
    if events != [] {
      TerminalIsStable(Next(m, events[0]), events[1..]);
    }
  }

  /** Two jobs posted one after the other have different ids. */
  lemma NextIdDiffers(m: Machine, kind: Kind, valid: bool)
    requires m.nextId != 0 && !Active(m.control)
    ensures Posted(m, kind, valid).control.id == m.nextId
    ensures Posted(m, kind, valid).nextId != 0 && Posted(m, kind, valid).nextId != m.nextId
  {
  }

  // ----- a job ends -----

  /** A job whose initialisation failed only waits for its last service call, in which nothing is run. */
  predicate Skips(c: Control) { Active(c) && c.kind != NoJob && OpAt(c).None? }

  /** How many service calls the job still needs at most, once each gets through. */
  function Remaining(c: Control): nat
  {
    if !Active(c) then 0
    else if c.step <= LastStep(c.kind) then LastStep(c.kind) - c.step + 1 else 1
  }

  /** A service call gets through when its result is not read as RESOURCE_BUSY, or no operation is run and the
      storage error is not RESOURCE_BUSY either. */
  predicate GetsThrough(m: Machine, r: Result) {
    Active(m.control) && if OpAt(m.control).Some? then !Again(r) else m.control.kind == NoJob || !ReadsBusy(m.busy, r)
  }

  /** A call makes progress exactly when it gets through. */
  lemma ProgressIffThrough(m: Machine, r: Result)
    requires MachineInv(m) && Sound(r) && Active(m.control)
    ensures GetsThrough(m, r) <==> Remaining(ServedBy(m, r).control) < Remaining(m.control)
    ensures Remaining(ServedBy(m, r).control) <= Remaining(m.control)
  {
    hide EvidenceInv;
    var c := m.control;
    assert ServedBy(m, r).control == Served(c, m.busy, r);
    hide MachineInv, ServedBy;
    if LastStep(c.kind) == 0 {
      ShortProgress(c, m.busy, r);
    } else {
      LongProgress(c, m.busy, r);
    }
  }

  lemma ShortProgress(c: Control, busy: bool, r: Result)
    requires Active(c) && LastStep(c.kind) == 0 && c.kind != NoJob && c.step == 0
    ensures OpAt(c).Some? && (!Again(r) <==> Remaining(Served(c, busy, r)) < Remaining(c)) && Remaining(Served(c, busy, r)) <= Remaining(c)
  {
  }

  lemma LongProgress(c: Control, busy: bool, r: Result)
    requires Active(c) && c.kind in {ManifestScan, SystemInit, FaultEvidence} && c.step <= LastStep(c.kind)
    ensures var d := Served(c, busy, r);
            ((if OpAt(c).Some? then !Again(r) else !ReadsBusy(busy, r)) <==> Remaining(d) < Remaining(c)) && Remaining(d) <= Remaining(c)
  {
  }

  /** The service calls of a run that got through before the job ended. */
  function Through(m: Machine, events: seq<Event>): nat
    decreases |events|
  {
    if events == [] || !Active(m.control) then 0
    else
      (if events[0].Serving? && GetsThrough(m, events[0].result) then 1 else 0) + Through(Next(m, events[0]), events[1..])
  }

  /** Whatever else happens, a job has ended once as many service calls got through as it needs. */
  lemma {:induction false} JobEnds(m: Machine, events: seq<Event>) returns (k: nat)
    requires MachineInv(m) && AllPossible(events) && Through(m, events) >= Remaining(m.control)
    ensures k <= |events| && !Active(Run(m, events[..k]).control)
    decreases |events|
  {
    if !Active(m.control) {
      k := 0;
    } else {
      hide MachineInv, Served, GetsThrough;
      NextKeepsInv(m, events[0]);
      if events[0].Serving? { ProgressIffThrough(m, events[0].result); }
      var next := Next(m, events[0]);
      ThroughStep(m, events);
      var rest := JobEnds(next, events[1..]);
      k := rest + 1;
      assert events[..k][1..] == events[1..][..rest];
    }
  }

  /** Three service calls that get through end any job. */
  lemma JobEndsWithinThree(m: Machine, events: seq<Event>) returns (k: nat)
    requires MachineInv(m) && AllPossible(events) && Through(m, events) >= 3
    ensures k <= |events| && !Active(Run(m, events[..k]).control)
  {
    hide MachineInv, Through, AllPossible;
    k := JobEnds(m, events);
  }

  lemma ThroughStep(m: Machine, events: seq<Event>)
    requires MachineInv(m) && AllPossible(events) && Active(m.control)
    requires Through(m, events) >= Remaining(m.control)
    ensures events != [] && Through(Next(m, events[0]), events[1..]) >= Remaining(Next(m, events[0]).control)
  {
    if events[0].Serving? { ProgressIffThrough(m, events[0].result); }
  }

  // ----- where it does not end -----

  /** Every test of the skipped scan reads RESOURCE_BUSY. */
  predicate AlwaysBusy(m: Machine, events: seq<Event>)
    decreases |events|
  {
    events == [] || ((events[0].Serving? ==> ReadsBusy(m.busy, events[0].result)) && AlwaysBusy(Next(m, events[0]), events[1..]))
  }

  lemma SkippedNext(m: Machine, e: Event)
    requires Skips(m.control) && !e.Posting?
    ensures var c := Next(m, e).control;
            if e.Serving? && !ReadsBusy(m.busy, e.result) then !Active(c) else Skips(c)
  {
  }

  /** After a failed initialisation the job is still active, however often it is served and whatever disturbs the storage
      error, if and only if every test so far read RESOURCE_BUSY. */
  lemma {:induction false} SkippedStepWaitsIffBusy(m: Machine, events: seq<Event>)
    requires Skips(m.control) && forall i :: 0 <= i < |events| ==> !events[i].Posting?
    ensures Active(Run(m, events).control) <==> AlwaysBusy(m, events)
    decreases |events|
  {
    hide Next;
    if events != [] {
      SkippedNext(m, events[0]);
      var next := Next(m, events[0]);
      if Skips(next.control) {
        SkippedStepWaitsIffBusy(next, events[1..]);
      } else {
        TerminalIsStable(next, events[1..]);
      }
    }
  }

  /** With RESOURCE_BUSY left behind and no competing call to clear it, it waits for ever. */
  lemma {:induction false} StaleBusyBlocks(m: Machine, events: seq<Event>)
    requires Skips(m.control) && m.busy && forall i :: 0 <= i < |events| ==> events[i].Serving? && events[i].result.left != Some(false)
    ensures Skips(Run(m, events).control) && Run(m, events).busy
    decreases |events|
  {
    if events != [] {
      SkippedNext(m, events[0]);
      StaleBusyBlocks(Next(m, events[0]), events[1..]);
    }
  }

  /** That state is reached by a scan that finds no manifest, an initialisation that fails, and a competing post. */
  lemma StaleBusyIsReachable()
    ensures var m := Run(START, [Posting(ManifestScan, true), Serving(Result(false, false, None, true)),
                                 Serving(Result(false, false, None, false)), Posting(FileInfo, true)]);
            Skips(m.control) && m.busy
  {
    var e1, e2, e3, e4 := Posting(ManifestScan, true), Serving(Result(false, false, None, true)),
      Serving(Result(false, false, None, false)), Posting(FileInfo, true);
    var c1 := Control(1, ManifestScan, Queued, 0, false, false, false);
    var a, b := Attempt(ScanOp, false, false, false), Attempt(InitOp, false, false, false);
    var m1, m2 := FirstJob(c1, false, []), FirstJob(c1.(phase := Running, step := 1), false, [a]);
    var m3 := FirstJob(c1.(phase := Running, step := 2), false, [a, b]);
    assert Next(START, e1) == m1;
    assert Next(m1, e2) == m2;
    assert Next(m2, e3) == m3;
    assert Next(m3, e4) == m3.(busy := true);
    hide Next, Run;
    RunStep(START, e1, [e2, e3, e4], m1);
    RunStep(m1, e2, [e3, e4], m2);
    RunStep(m2, e3, [e4], m3);
    RunStep(m3, e4, [], m3.(busy := true));
    assert [e1] + [e2, e3, e4] == [e1, e2, e3, e4] && [e2] + [e3, e4] == [e2, e3, e4] && [e3] + [e4] == [e3, e4];
  }
}
