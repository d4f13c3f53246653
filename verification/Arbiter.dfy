/** The resource arbiter: which hardware resources are taken, by whom, and what mode that puts the device in.
    A 32-bit resource mask is the set of its one bits. */
module Arbiter {
  import opened Outcomes

  const BITS := 32
  const FLASH := 0
  const SPI0 := 1
  const SD := 8

  type Mask = m: set<nat> | forall b :: b in m ==> b < BITS
  type Owner = Option<string>
  type Owners = o: seq<Owner> | |o| == BITS witness seq(BITS, _ => None)

  datatype Mode = BootMode | RunMode | OtaMode | FaultMode

  datatype State = State(
    initialized: bool, mode: Mode, active: Mask, owners: Owners,
    conflictResources: Mask, conflictOwner: Owner, conflictHolder: Owner,
    captureRunning: bool, clockRunning: bool)

  function NoOwners(): Owners { seq(BITS, _ => None) }

  const COLD := State(false, BootMode, {}, NoOwners(), {}, None, None, false, false)
  const RESET := COLD.(initialized := true, mode := RunMode)

  /** Every call first resets an arbiter that was never initialised. */
  function Awake(s: State): State { if s.initialized then s else RESET }

  /** A release without a name matches every owner. */
  predicate OwnerMatches(expected: Owner, actual: Owner) { expected.None? || expected == actual }

  /** The owner on the lowest bit that has one. */
  function FirstOwner(owners: Owners, resources: Mask, bit: nat): Owner
    decreases BITS - bit
  {
    if bit >= BITS then None
    else if bit in resources && owners[bit].Some? then owners[bit]
    else FirstOwner(owners, resources, bit + 1)
  }

  function WithOwner(owners: Owners, resources: Mask, owner: Owner): Owners {
    seq(BITS, b requires 0 <= b < BITS => if b in resources then owner else owners[b])
  }

  function Acquire(s: State, resources: Mask, owner: Owner): (State, bool) {
    if resources == {} then (s, false)
    else
      var a := Awake(s);
      var conflicts := a.active * resources;
      if conflicts == {} then
        (a.(active := a.active + resources, owners := WithOwner(a.owners, resources, owner),
            mode := if FLASH in resources then OtaMode else a.mode), true)
      else
        (a.(conflictResources := conflicts, conflictOwner := owner, conflictHolder := FirstOwner(a.owners, conflicts, 0)), false)
  }

  /** The bits a release gives back: those whose owner it names. */
  function Released(owners: Owners, resources: Mask, owner: Owner): Mask {
    set b | b in resources && OwnerMatches(owner, owners[b])
  }

  function Release(s: State, resources: Mask, owner: Owner): State {
    if resources == {} then s
    else
      var a := Awake(s);
      var released := Released(a.owners, resources, owner);
      var active := a.active - released;
      a.(active := active, owners := WithOwner(a.owners, released, None),
         mode := if FLASH !in active && a.mode == OtaMode then RunMode else a.mode)
  }

  function Publish(s: State, capture: bool, clock: bool): State {
    Awake(s).(captureRunning := capture, clockRunning := clock)
  }

  predicate CanBeginOta(s: State) {
    !s.captureRunning && !s.clockRunning && FLASH !in s.active && s.mode != FaultMode
  }

  // ----- what every call keeps -----

  /** An owner is recorded only on an active bit; once initialised the mode is OTA exactly while FLASH is active. */
  ghost predicate Good(s: State) {
    && (forall b :: 0 <= b < BITS && s.owners[b].Some? ==> b in s.active)
    && (s.initialized ==> s.mode in {RunMode, OtaMode} && (s.mode == OtaMode <==> FLASH in s.active))
    && (!s.initialized ==> s == COLD)
  }

  lemma AwakeIsGood(s: State)
    requires Good(s)
    ensures Good(Awake(s)) && Awake(s).active == s.active && Awake(s).owners == s.owners && Awake(s).initialized
  {
  }

  lemma AcquireKeepsGood(s: State, resources: Mask, owner: Owner)
    requires Good(s)
    ensures Good(Acquire(s, resources, owner).0)
  {
    AwakeIsGood(s);
  }

  lemma ReleaseKeepsGood(s: State, resources: Mask, owner: Owner)
    requires Good(s)
    ensures Good(Release(s, resources, owner))
  {
    AwakeIsGood(s);
  }

  /** All or nothing: an acquire succeeds exactly when none of a non-empty set is active, and then takes it all and
      leaves every other owner alone; a refused one changes neither resources, owners nor mode. */
  lemma AllOrNothing(s: State, resources: Mask, owner: Owner)
    requires Good(s)
    ensures var (after, ok) := Acquire(s, resources, owner);
            && (ok <==> resources != {} && resources !! s.active)
            && after.active == s.active + (if ok then resources else {})
            && (forall b :: 0 <= b < BITS ==> after.owners[b] == if ok && b in resources then owner else s.owners[b])
            && (!ok && s.initialized ==> after.mode == s.mode)
  {
    AwakeIsGood(s);
    if resources !! s.active { assert s.active * resources == {}; }
    assert forall b :: b in resources && b in s.active ==> b in s.active * resources;
  }

  lemma {:induction false} FirstOwnerIs(owners: Owners, resources: Mask, bit: nat) returns (b: nat)
    requires bit <= BITS
    ensures b <= BITS && FirstOwner(owners, resources, bit) == if b < BITS then owners[b] else None
    ensures b < BITS ==> b >= bit && b in resources && owners[b].Some?
    ensures forall c :: bit <= c < b && c in resources ==> owners[c].None?
    decreases BITS - bit
  {
    if bit >= BITS || (bit in resources && owners[bit].Some?) {
      b := bit;
    } else {
      b := FirstOwnerIs(owners, resources, bit + 1);
    }
  }

  /** A refused acquire tells why: what of the request is taken, who asked, and the owner on the lowest of those bits that has one. */
  lemma RefusalTellsWhy(s: State, resources: Mask, owner: Owner) returns (b: nat)
    requires Good(s) && resources != {} && !Acquire(s, resources, owner).1
    ensures var a := Acquire(s, resources, owner).0;
            && a.conflictResources == s.active * resources != {} && a.conflictOwner == owner
            && (a.conflictHolder.Some? ==> b in a.conflictResources && s.owners[b] == a.conflictHolder)
            && (forall c :: c in a.conflictResources && (a.conflictHolder.None? || c < b) ==> s.owners[c].None?)
  {
    AwakeIsGood(s);
    b := FirstOwnerIs(Awake(s).owners, Awake(s).active * resources, 0);
  }

  /** A release under a name frees exactly what is recorded under that name, of what it asks for. */
  lemma NamedReleaseKeepsOthers(s: State, resources: Mask, name: Owner)
    requires Good(s) && name.Some?
    ensures var after := Release(s, resources, name);
            forall b :: 0 <= b < BITS ==>
              if b in resources && s.owners[b] == name then b !in after.active && after.owners[b].None?
              else (b in after.active <==> b in s.active) && after.owners[b] == s.owners[b]
  {
    AwakeIsGood(s);
  }

  /** What one call undoes: releasing under the same name, or without one, gives back exactly what was acquired. */
  lemma ReleaseUndoesAcquire(s: State, resources: Mask, owner: Owner, name: Owner)
    requires Good(s) && Acquire(s, resources, owner).1 && OwnerMatches(name, owner)
    ensures var after := Release(Acquire(s, resources, owner).0, resources, name);
            after == Awake(s)
  {
    AwakeIsGood(s);
    AllOrNothing(s, resources, owner);
    var a, mid := Awake(s), Acquire(s, resources, owner).0;
    assert Released(mid.owners, resources, name) == resources;
    var after := Release(mid, resources, name);
    assert after.active == a.active;
    assert after.owners == a.owners;
  }

  /** Under any other name it gives back nothing at all. */
  lemma WrongNameKeepsAll(s: State, resources: Mask, owner: Owner, name: Owner)
    requires Good(s) && Acquire(s, resources, owner).1 && !OwnerMatches(name, owner)
    ensures var held := Acquire(s, resources, owner).0; Release(held, resources, name) == held
  {
    AwakeIsGood(s);
    var held := Acquire(s, resources, owner).0;
    AcquireKeepsGood(s, resources, owner);
    assert Released(held.owners, resources, name) == {};
    assert WithOwner(held.owners, {}, None) == held.owners;
  }

  /** A release frees nothing it was not asked to, and without a name all that it was asked to. */
  lemma ReleaseStaysInside(s: State, resources: Mask, owner: Owner)
    requires Good(s)
    ensures s.active - resources <= Release(s, resources, owner).active <= s.active
    ensures owner.None? ==> Release(s, resources, owner).active == s.active - resources
  {
    AwakeIsGood(s);
  }

  // ----- clients over whole runs -----

  type Client = nat

  /** The arbiter with what each client has acquired and not yet released, and the names it used. */
  datatype System = System(arbiter: State, held: map<Client, Mask>, names: map<Client, Owner>)

  datatype Action =
    | Acquiring(client: Client, resources: Mask)
    | Releasing(client: Client, resources: Mask, named: bool)
    | Publishing(capture: bool, clock: bool)

  function Holding(sys: System, c: Client): Mask { if c in sys.held then sys.held[c] else {} }

  function NameOf(sys: System, c: Client): Owner { if c in sys.names then sys.names[c] else None }

  /** Clients release only what they have acquired. */
  predicate Disciplined(sys: System, a: Action) {
    a.Releasing? ==> a.resources <= Holding(sys, a.client)
  }

  function Step(sys: System, a: Action): System {
    match a
    case Acquiring(c, resources) =>
      var (after, ok) := Acquire(sys.arbiter, resources, NameOf(sys, c));
      sys.(arbiter := after, held := if ok then sys.held[c := Holding(sys, c) + resources] else sys.held)
    case Releasing(c, resources, named) =>
      sys.(arbiter := Release(sys.arbiter, resources, if named then NameOf(sys, c) else None),
           held := sys.held[c := Holding(sys, c) - resources])
    case Publishing(capture, clock) => sys.(arbiter := Publish(sys.arbiter, capture, clock))
  }

  /** Nobody holds what another holds. */
  ghost predicate Disjoint(sys: System) {
    forall c, d :: c != d ==> Holding(sys, c) !! Holding(sys, d)
  }

  /** What is held is active, under its holder's name. */
  ghost predicate Recorded(sys: System) {
    forall c, b :: b in Holding(sys, c) ==> b in sys.arbiter.active && sys.arbiter.owners[b] == NameOf(sys, c)
  }

  /** Nothing is active that nobody holds. */
  ghost predicate Covered(sys: System) {
    forall b :: b in sys.arbiter.active ==> exists c :: b in Holding(sys, c)
  }

  ghost predicate Shared(sys: System) {
    Good(sys.arbiter) && Disjoint(sys) && Recorded(sys) && Covered(sys)
  }

  /** A step by c that adds to or takes from what c holds, the arbiter following. */
  ghost predicate Moves(sys: System, after: System, c: Client, add: Mask, drop: Mask) {
    && after.names == sys.names
    && after.arbiter.active == sys.arbiter.active + add - drop
    && (forall b :: 0 <= b < BITS && b !in add && b !in drop ==> after.arbiter.owners[b] == sys.arbiter.owners[b])
    && (forall b :: b in add ==> after.arbiter.owners[b] == NameOf(sys, c))
    && (forall d :: Holding(after, d) == if d == c then Holding(sys, c) + add - drop else Holding(sys, d))
  }

  lemma MovesKeepDisjoint(sys: System, after: System, c: Client, add: Mask, drop: Mask)
    requires Disjoint(sys) && Recorded(sys) && Moves(sys, after, c, add, drop) && add !! sys.arbiter.active
    ensures Disjoint(after)
  {
    forall d, e | d != e ensures Holding(after, d) !! Holding(after, e) {
      assert Holding(sys, d) !! Holding(sys, e);
      assert add !! Holding(sys, d) && add !! Holding(sys, e);
    }
  }

  lemma MovesKeepRecorded(sys: System, after: System, c: Client, add: Mask, drop: Mask)
    requires Disjoint(sys) && Recorded(sys) && Moves(sys, after, c, add, drop)
    requires add !! sys.arbiter.active && drop <= Holding(sys, c)
    ensures Recorded(after)
  {
    forall d, b | b in Holding(after, d) ensures b in after.arbiter.active && after.arbiter.owners[b] == NameOf(after, d) {
      if b !in add || d != c {
        assert b in Holding(sys, d) && b !in drop;
      }
      assert NameOf(after, d) == NameOf(sys, d);
    }
  }

  lemma MovesKeepCovered(sys: System, after: System, c: Client, add: Mask, drop: Mask)
    requires Covered(sys) && Moves(sys, after, c, add, drop)
    ensures Covered(after)
  {
    forall b | b in after.arbiter.active ensures exists d :: b in Holding(after, d) {
      if b in add {
        assert b in Holding(after, c);
      } else {
        var d :| b in Holding(sys, d);
        assert b in Holding(after, d);
      }
    }
  }

  lemma MovesKeepShared(sys: System, after: System, c: Client, add: Mask, drop: Mask)
    requires Disjoint(sys) && Recorded(sys) && Covered(sys) && Moves(sys, after, c, add, drop)
    requires add !! sys.arbiter.active && drop <= Holding(sys, c)
    ensures Disjoint(after) && Recorded(after) && Covered(after)
  {
    hide Disjoint, Recorded, Covered, Moves;
    MovesKeepDisjoint(sys, after, c, add, drop);
    MovesKeepRecorded(sys, after, c, add, drop);
    MovesKeepCovered(sys, after, c, add, drop);
  }

  lemma AcquiringKeepsShared(sys: System, c: Client, resources: Mask)
    requires Shared(sys)
    ensures Shared(Step(sys, Acquiring(c, resources)))
  {
    var after := Step(sys, Acquiring(c, resources));
    AllOrNothing(sys.arbiter, resources, NameOf(sys, c));
    AcquireKeepsGood(sys.arbiter, resources, NameOf(sys, c));
    hide Acquire, Good, Disjoint, Recorded, Covered;
    var add: Mask := if Acquire(sys.arbiter, resources, NameOf(sys, c)).1 then resources else {};
    assert Moves(sys, after, c, add, {});
    MovesKeepShared(sys, after, c, add, {});
  }

  lemma HeldIsReleased(sys: System, c: Client, resources: Mask, name: Owner)
    requires Recorded(sys) && resources <= Holding(sys, c) && name in {None, NameOf(sys, c)}
    ensures Released(sys.arbiter.owners, resources, name) == resources
  {
  }

  lemma ReleasingKeepsShared(sys: System, c: Client, resources: Mask, named: bool)
    requires Shared(sys) && resources <= Holding(sys, c)
    ensures Shared(Step(sys, Releasing(c, resources, named)))
  {
    var name := if named then NameOf(sys, c) else None;
    var after := Step(sys, Releasing(c, resources, named));
    AwakeIsGood(sys.arbiter);
    ReleaseKeepsGood(sys.arbiter, resources, name);
    HeldIsReleased(sys, c, resources, name);
    hide Good, Disjoint, Recorded, Covered, Released, Awake;
    assert Moves(sys, after, c, {}, resources);
    MovesKeepShared(sys, after, c, {}, resources);
  }

  function RunActions(sys: System, actions: seq<Action>): System
    decreases |actions|
  {
    if actions == [] then sys else RunActions(Step(sys, actions[0]), actions[1..])
  }

  ghost predicate AllDisciplined(sys: System, actions: seq<Action>)
    decreases |actions|
  {
    actions == [] || (Disciplined(sys, actions[0]) && AllDisciplined(Step(sys, actions[0]), actions[1..]))
  }

  /** Mutual exclusion over whole runs of clients that release only what they acquired. */
  lemma {:induction false} DisciplinedRunsShare(sys: System, actions: seq<Action>)
    requires Shared(sys) && AllDisciplined(sys, actions)
    ensures Shared(RunActions(sys, actions))
    decreases |actions|
  {
    hide Shared, Disciplined;
    if actions != [] {
      match actions[0] {
        case Acquiring(c, resources) => AcquiringKeepsShared(sys, c, resources);
        case Releasing(c, resources, named) => ReleasingIsShared(sys, c, resources, named);
        case Publishing(capture, clock) => PublishingKeepsShared(sys, capture, clock);
      }
      DisciplinedRunsShare(Step(sys, actions[0]), actions[1..]);
    }
  }

  /** In particular from power-up, when nobody holds anything. */
  lemma RunsFromColdShare(names: map<Client, Owner>, actions: seq<Action>)
    requires AllDisciplined(System(COLD, map[], names), actions)
    ensures Shared(RunActions(System(COLD, map[], names), actions))
  {
    DisciplinedRunsShare(System(COLD, map[], names), actions);
  }

  lemma ReleasingIsShared(sys: System, c: Client, resources: Mask, named: bool)
    requires Shared(sys) && Disciplined(sys, Releasing(c, resources, named))
    ensures Shared(Step(sys, Releasing(c, resources, named)))
  {
    hide Shared;
    ReleasingKeepsShared(sys, c, resources, named);
  }

  lemma PublishingKeepsShared(sys: System, capture: bool, clock: bool)
    requires Shared(sys)
    ensures Shared(Step(sys, Publishing(capture, clock)))
  {
    AwakeIsGood(sys.arbiter);
    var after := Step(sys, Publishing(capture, clock));
    assert Moves(sys, after, 0, {}, {});
    MovesKeepShared(sys, after, 0, {}, {});
  }

  /** The holder a refused client is told of does hold something it asked for. */
  lemma RefusalNamesAHolder(sys: System, c: Client, resources: Mask) returns (holder: Client)
    requires Shared(sys) && resources != {} && !Acquire(sys.arbiter, resources, NameOf(sys, c)).1
    ensures var told := Step(sys, Acquiring(c, resources)).arbiter;
            told.conflictHolder.Some? ==> told.conflictHolder == NameOf(sys, holder) && !(Holding(sys, holder) !! resources)
  {
    holder := c;
    var b := RefusalTellsWhy(sys.arbiter, resources, NameOf(sys, c));
    if Acquire(sys.arbiter, resources, NameOf(sys, c)).0.conflictHolder.Some? {
      holder :| b in Holding(sys, holder);
    }
  }

  /** OTA may begin only while no client holds FLASH. */
  lemma OtaNeedsFreeFlash(sys: System)
    requires Shared(sys)
    ensures CanBeginOta(sys.arbiter) <==>
      !sys.arbiter.captureRunning && !sys.arbiter.clockRunning && forall c :: FLASH !in Holding(sys, c)
  {
    if FLASH in sys.arbiter.active {
      var c :| FLASH in Holding(sys, c);
    }
  }

  // ----- one client among others -----

  /** A call of the arbiter and its answer, as one client sees it: its own, or that of somebody else. */
  datatype Side = Ours | Theirs

  datatype Call = Asked(caller: Side, resources: Mask, granted: bool) | Gave(caller: Side, freed: Mask)

  /** What a side holds after the calls: what it was granted and has not given back. */
  function Held(start: Mask, side: Side, calls: seq<Call>): Mask {
    if calls == [] then start else HeldAfter(Held(start, side, calls[..|calls| - 1]), side, calls[|calls| - 1])
  }

  function HeldAfter(held: Mask, side: Side, call: Call): Mask {
    match call
    case Asked(caller, resources, granted) => if caller == side && granted then held + resources else held
    case Gave(caller, freed) => if caller == side then held - freed else held
  }

  lemma HeldAppend(start: Mask, side: Side, calls: seq<Call>, call: Call)
    ensures Held(start, side, calls + [call]) == HeldAfter(Held(start, side, calls), side, call)
  {
    assert (calls + [call])[..|calls|] == calls;
  }

  lemma {:induction false} HeldCompose(start: Mask, side: Side, a: seq<Call>, b: seq<Call>)
    ensures Held(start, side, a + b) == Held(Held(start, side, a), side, b)
    decreases |b|
  {
    if b == [] {
      assert a + b == a;
    } else {
      var front, last := b[..|b| - 1], b[|b| - 1];
      HeldCompose(start, side, a, front);
      HeldAppend(start, side, a + front, last);
      assert a + b == a + front + [last];
    }
  }

  // ----- the arbiter as it is kept in memory -----

  class ResourceArbiter {
    var initialized: bool
    var mode: Mode
    var active: Mask
    const owners: array<Owner>
    var conflictResources: Mask
    var conflictOwner: Owner
    var conflictHolder: Owner
    var captureRunning: bool
    var clockRunning: bool
    /** Every acquire and release so far. */
    ghost var calls: seq<Call>

    ghost predicate Valid() { owners.Length == BITS }

    ghost function Value(): State
      requires Valid()
      reads this`initialized, this`mode, this`active, this`conflictResources, this`conflictOwner, this`conflictHolder,
        this`captureRunning, this`clockRunning, owners
    {
      State(initialized, mode, active, owners[..], conflictResources, conflictOwner, conflictHolder, captureRunning, clockRunning)
    }

    constructor ()
      ensures Valid() && fresh(owners) && Value() == COLD && calls == []
    {
      initialized, mode, active := false, BootMode, {};
      owners := new Owner[BITS](_ => None);
      conflictResources, conflictOwner, conflictHolder := {}, None, None;
      captureRunning, clockRunning := false, false;
      calls := [];
      new;
      assert owners[..] == NoOwners();
    }

    method Reset()
      requires Valid()
      modifies this, owners
      ensures Value() == RESET && calls == old(calls)
    {
      active, conflictResources, conflictOwner, conflictHolder := {}, {}, None, None;
      captureRunning, clockRunning := false, false;
      forall b | 0 <= b < BITS {
        owners[b] := None;
      }
      initialized, mode := true, RunMode;
      assert owners[..] == NoOwners();
    }

    method Wake()
      requires Valid()
      modifies this, owners
      ensures Value() == Awake(old(Value())) && calls == old(calls)
    {
      if !initialized {
        Reset();
      }
    }

    method PublishTriggerActivity(capture: bool, clock: bool)
      requires Valid()
      modifies this, owners
      ensures Value() == Publish(old(Value()), capture, clock) && calls == old(calls)
      ensures captureRunning == capture && clockRunning == clock
    {
      Wake();
      captureRunning, clockRunning := capture, clock;
    }

    method CanBeginOtaNow() returns (allowed: bool)
      requires Valid()
      modifies this, owners
      ensures Value() == Awake(old(Value())) && (allowed <==> CanBeginOta(Value())) && calls == old(calls)
    {
      Wake();
      allowed := !captureRunning && !clockRunning && FLASH !in active && mode != FaultMode;
    }

    method FirstOwnerOf(resources: Mask) returns (owner: Owner)
      requires Valid()
      ensures owner == FirstOwner(owners[..], resources, 0)
    {
      var bit := 0;
      while bit < BITS
        invariant 0 <= bit <= BITS
        invariant FirstOwner(owners[..], resources, 0) == FirstOwner(owners[..], resources, bit)
      {
        if bit in resources && owners[bit].Some? {
          return owners[bit];
        }
        bit := bit + 1;
      }
      return None;
    }

    method AcquireOwned(resources: Mask, owner: Owner, ghost caller: Side) returns (acquired: bool)
      requires Valid()
      modifies this, owners
      ensures (Value(), acquired) == Acquire(old(Value()), resources, owner)
      ensures calls == old(calls) + [Asked(caller, resources, acquired)]
    {
      if resources == {} {
        calls := calls + [Asked(caller, resources, false)];
        return false;
      }
      Wake();
      ghost var awake := Value();
      var conflicts := active * resources;
      if conflicts == {} {
        active := active + resources;
        var bit := 0;
        while bit < BITS
          invariant 0 <= bit <= BITS
          invariant forall b :: 0 <= b < BITS ==> owners[b] == if b < bit && b in resources then owner else awake.owners[b]
          modifies owners
        {
          if bit in resources {
            owners[bit] := owner;
          }
          bit := bit + 1;
        }
        assert owners[..] == WithOwner(awake.owners, resources, owner);
        if FLASH in resources {
          mode := OtaMode;
        }
        acquired := true;
      } else {
        conflictResources := conflicts;
        conflictOwner := owner;
        conflictHolder := FirstOwnerOf(conflicts);
        acquired := false;
      }
      calls := calls + [Asked(caller, resources, acquired)];
    }

    method ReleaseOwned(resources: Mask, owner: Owner, ghost caller: Side)
      requires Valid()
      modifies this, owners
      ensures Value() == Release(old(Value()), resources, owner)
      ensures calls == old(calls) + [Gave(caller, old(active) - active)]
    {
      ghost var had := active;
      if resources == {} {
        assert had - active == {};
        calls := calls + [Gave(caller, {})];
        return;
      }
      Wake();
      ghost var awake := Value();
      ghost var released := Released(awake.owners, resources, owner);
      var bit := 0;
      while bit < BITS
        invariant 0 <= bit <= BITS
        invariant active == awake.active - (set b | b in released && b < bit)
        invariant forall b :: 0 <= b < BITS ==> owners[b] == if b < bit && b in released then None else awake.owners[b]
        modifies this`active, owners
      {
        if bit in resources && OwnerMatches(owner, owners[bit]) {
          active := active - {bit};
          owners[bit] := None;
        }
        bit := bit + 1;
      }
      assert owners[..] == WithOwner(awake.owners, released, None);
      assert active == awake.active - released;
      if FLASH !in active && mode == OtaMode {
        mode := RunMode;
      }
      calls := calls + [Gave(caller, had - active)];
    }
  }
}
