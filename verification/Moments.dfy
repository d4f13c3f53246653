/** What lies between two moments of the storage manager's life: calls of the arbiter by storage and by other tasks, and
    writes of the storage error. */
module Moments {
  import opened Bytes
  import opened Outcomes
  import A = Arbiter
  import Card

  const ERROR_NONE: u32 := 0
  const ERROR_BUSY: u32 := 1

  /** A write of the storage error: by storage's own work, or by a competing call from another task: RESOURCE_BUSY when it is
      turned away, anything when it is a command that sees to the card itself. */
  datatype Write = Own(error: u32) | Competing(error: u32)

  /** What other tasks hold of the arbiter, with all calls and all writes so far. */
  datatype Moment = Moment(others: A.Mask, calls: seq<A.Call>, writes: seq<Write>)

  /** Storage holds nothing more than it did: what is held by others is what they were granted and have not given back. */
  ghost predicate Follows(from: Moment, now: Moment) {
    && from.calls <= now.calls && from.writes <= now.writes
    && now.others == A.Held(from.others, A.Theirs, now.calls[|from.calls|..])
  }

  /** In between, the arbiter turned down storage's request for the bus. */
  ghost predicate Refused(from: Moment, now: Moment) {
    from.calls <= now.calls && A.Asked(A.Ours, Card.BUS, false) in now.calls[|from.calls|..]
  }

  /** In between, the storage error was written, and last by a competing call. */
  ghost predicate Overtaken(from: Moment, now: Moment) {
    |from.writes| < |now.writes| && now.writes[|now.writes| - 1].Competing?
  }

  /** What the last write left in the storage error. */
  function Left(m: Moment): u32 { if m.writes == [] then ERROR_NONE else m.writes[|m.writes| - 1].error }

  /** Whether a competing call, if one wrote last, left RESOURCE_BUSY. */
  ghost function LeftBusy(from: Moment, now: Moment): Option<bool> {
    if Overtaken(from, now) then Some(Left(now) == ERROR_BUSY) else None
  }

  ghost predicate Unrefused(from: Moment, now: Moment) { Follows(from, now) && !Refused(from, now) }

  /** Nothing refused, and the error is what a competing call left, or else not RESOURCE_BUSY. */
  ghost predicate Clear(from: Moment, now: Moment, error: u32) {
    Unrefused(from, now) && if Overtaken(from, now) then error == Left(now) else error != ERROR_BUSY
  }

  /** How an operation of storage ends: it has given back what it took; when it succeeded nothing was refused; and the
      storage error is what a competing call left, if one wrote last, or else reads RESOURCE_BUSY exactly when the arbiter
      refused the operation in between. */
  ghost predicate Honest(from: Moment, now: Moment, ok: bool, error: u32) {
    && Follows(from, now) && (ok ==> !Refused(from, now))
    && if Overtaken(from, now) then error == Left(now) else (error == ERROR_BUSY <==> Refused(from, now))
  }

  /** Either way an operation ends: with nothing refused, or with a failure that is told truly. */
  ghost predicate Over(from: Moment, now: Moment, ok: bool, error: u32) {
    Clear(from, now, error) || (!ok && Honest(from, now, false, error))
  }

  /** The storage error was last written as it was before. */
  ghost predicate SameLast(from: Moment, a: Moment, b: Moment) {
    (Overtaken(from, b) <==> Overtaken(from, a)) && Left(b) == Left(a)
  }

  /** From one moment to a later one only others acted: a competing call wrote the error last, or it is as it was. */
  ghost predicate OthersOnly(from: Moment, a: Moment, b: Moment, before: u32, after: u32) {
    && Follows(from, b) && (Refused(from, b) <==> Refused(from, a))
    && ((after == before && SameLast(from, a, b)) || (Overtaken(from, b) && after == Left(b)))
  }

  function Called(m: Moment, call: A.Call): Moment {
    Moment(A.HeldAfter(m.others, A.Theirs, call), m.calls + [call], m.writes)
  }

  function Wrote(m: Moment, w: Write): Moment { m.(writes := m.writes + [w]) }

  lemma FollowsItself(m: Moment)
    ensures Unrefused(m, m) && !Overtaken(m, m)
  {
  }

  lemma CallFollows(from: Moment, m: Moment, call: A.Call)
    requires Follows(from, m)
    ensures Follows(from, Called(m, call)) && SameLast(from, m, Called(m, call))
    ensures Refused(from, Called(m, call)) <==> Refused(from, m) || call == A.Asked(A.Ours, Card.BUS, false)
  {
    var since := m.calls[|from.calls|..];
    A.HeldAppend(from.others, A.Theirs, since, call);
    assert Called(m, call).calls[|from.calls|..] == since + [call];
  }

  lemma WriteFollows(from: Moment, m: Moment, w: Write)
    requires Follows(from, m)
    ensures Follows(from, Wrote(m, w)) && (Refused(from, Wrote(m, w)) <==> Refused(from, m))
    ensures (Overtaken(from, Wrote(m, w)) <==> w.Competing?) && Left(Wrote(m, w)) == w.error
  {
  }

  /** Operations in a row: together they too leave to others exactly what those took themselves. */
  lemma FollowsTrans(a: Moment, b: Moment, c: Moment)
    requires Follows(a, b) && Follows(b, c)
    ensures Follows(a, c) && (Refused(a, c) <==> Refused(a, b) || Refused(b, c))
    ensures Overtaken(a, c) <==> if c.writes == b.writes then Overtaken(a, b) else Overtaken(b, c)
  {
    var first, second := b.calls[|a.calls|..], c.calls[|b.calls|..];
    A.HeldCompose(a.others, A.Theirs, first, second);
    assert c.calls[|a.calls|..] == first + second;
  }
}
