/** The OTA event queue: a ring of eight messages whose delivered events point into the ring's own buffers. */
module EventBus {
  import opened Outcomes
  import opened Bytes

  const QUEUE_LENGTH := 8
  const MAX_DATA_SIZE := 512
  const DATA_SIZE := QUEUE_LENGTH * MAX_DATA_SIZE

  /** Where an event's data pointer leads: nowhere, to the poster's memory, or into the ring. */
  datatype Pointer = Null | Memory(bytes: seq<byte>) | Buffer(offset: nat)

  datatype Event =
    | Begin(size: u32, crc32: u32, imageVersion: u32, flags: u32)
    | DataBlock(data: Pointer, length: u32, blockIndex: u32)
    | Signal(kind: nat, value: u32)

  /** An event as its reader sees it: a data block with its bytes. */
  datatype Message = Block(bytes: seq<byte>, blockIndex: u32) | Plain(event: Event)

  // ----- the ring -----

  /** The static state: message headers, message buffers back to back, and the two ends. */
  datatype Ring = Ring(slots: seq<Event>, data: seq<byte>, head: nat, tail: nat, count: nat)

  const EMPTY := Ring(seq(QUEUE_LENGTH, _ => Begin(0, 0, 0, 0)), Fill(0, DATA_SIZE), 0, 0, 0)

  /** The slot after wrapping around. */
  function Around(n: nat): (slot: nat)
    ensures slot < QUEUE_LENGTH
    ensures n < 2 * QUEUE_LENGTH ==> slot == if n < QUEUE_LENGTH then n else n - QUEUE_LENGTH
  {
    n % QUEUE_LENGTH
  }

  predicate Shaped(r: Ring) {
    && |r.slots| == QUEUE_LENGTH && |r.data| == DATA_SIZE
    && r.head < QUEUE_LENGTH && r.tail < QUEUE_LENGTH && r.count <= QUEUE_LENGTH
    && r.tail == Around(r.head + r.count)
  }

  /** The slot of the i-th queued message. */
  function SlotOf(r: Ring, i: nat): nat { Around(r.head + i) }

  /** A queued data block points at its own slot's buffer. */
  predicate Owned(e: Event, slot: nat) {
    e.DataBlock? ==> e.data == Buffer(slot * MAX_DATA_SIZE) && 0 < e.length <= MAX_DATA_SIZE
  }

  predicate Valid(r: Ring) {
    Shaped(r) && forall i :: 0 <= i < r.count ==> Owned(r.slots[SlotOf(r, i)], SlotOf(r, i))
  }

  /** The bytes to be copied are there, in the poster's memory or, for an event that was received, in the ring. */
  predicate Postable(e: Event) {
    e.DataBlock? && e.length <= MAX_DATA_SIZE ==>
      (e.data.Memory? ==> e.length <= |e.data.bytes|) && (e.data.Buffer? ==> e.data.offset + e.length <= DATA_SIZE)
  }

  predicate Acceptable(e: Event) {
    e.DataBlock? ==> !e.data.Null? && 0 < e.length <= MAX_DATA_SIZE
  }

  /** The bytes a data block points at when it is posted. */
  function Payload(data: seq<byte>, e: Event): (bytes: seq<byte>)
    requires |data| == DATA_SIZE && Postable(e) && Acceptable(e) && e.DataBlock?
    ensures |bytes| == e.length
  {
    if e.data.Memory? then e.data.bytes[..e.length] else data[e.data.offset..e.data.offset + e.length]
  }

  /** What a poster asks to be delivered. */
  function MessageOf(data: seq<byte>, e: Event): Message
    requires |data| == DATA_SIZE && Postable(e) && Acceptable(e)
  {
    if e.DataBlock? then Block(Payload(data, e), e.blockIndex) else Plain(e)
  }

  /** What a reader finds behind a delivered event. */
  function Seen(data: seq<byte>, e: Event): Message {
    if e.DataBlock? && e.data.Buffer? && e.data.offset + e.length <= |data|
    then Block(data[e.data.offset..e.data.offset + e.length], e.blockIndex)
    else Plain(e)
  }

  function Post(r: Ring, e: Event): (Ring, bool)
    requires Shaped(r) && Postable(e)
  {
    if r.count >= QUEUE_LENGTH then (r, false)
    else if !Acceptable(e) then (r.(slots := r.slots[r.tail := e]), false)
    else
      var at := r.tail * MAX_DATA_SIZE;
      var pushed := r.(tail := Around(r.tail + 1), count := r.count + 1);
      if e.DataBlock? then
        (pushed.(slots := r.slots[r.tail := e.(data := Buffer(at))], data := Splice(r.data, at, Payload(r.data, e))), true)
      else (pushed.(slots := r.slots[r.tail := e]), true)
  }

  function Receive(r: Ring): (Ring, Option<Event>)
    requires Shaped(r)
  {
    if r.count == 0 then (r, None)
    else (r.(head := Around(r.head + 1), count := r.count - 1), Some(r.slots[r.head]))
  }

  // ----- the queue it implements -----

  function Queued(r: Ring, i: nat): Message
    requires Shaped(r) && i < r.count
  {
    Seen(r.data, r.slots[SlotOf(r, i)])
  }

  function Contents(r: Ring): (q: seq<Message>)
    requires Shaped(r)
    ensures |q| == r.count
  {
    seq(r.count, i requires 0 <= i < r.count => Queued(r, i))
  }

  lemma SlotsDiffer(r: Ring, i: nat, j: nat)
    requires Shaped(r) && i < j < QUEUE_LENGTH
    ensures SlotOf(r, i) != SlotOf(r, j)
  {
    hide Around;
  }

  /** The buffers of two slots do not overlap. */
  lemma BuffersApart(slot: nat, other: nat)
    requires slot != other
    ensures slot * MAX_DATA_SIZE + MAX_DATA_SIZE <= other * MAX_DATA_SIZE || other * MAX_DATA_SIZE + MAX_DATA_SIZE <= slot * MAX_DATA_SIZE
  {
  }

  lemma SlotInData(slot: nat)
    requires slot < QUEUE_LENGTH
    ensures slot * MAX_DATA_SIZE + MAX_DATA_SIZE <= DATA_SIZE
  {
  }

  function BufferOf(r: Ring, slot: nat): seq<byte>
    requires Shaped(r) && slot < QUEUE_LENGTH
  {
    r.data[slot * MAX_DATA_SIZE..slot * MAX_DATA_SIZE + MAX_DATA_SIZE]
  }

  /** A post writes in no buffer but the one at the tail. */
  lemma PostKeepsOtherBuffers(r: Ring, e: Event, slot: nat, lo: nat, hi: nat)
    requires Shaped(r) && Postable(e) && slot < QUEUE_LENGTH && slot != r.tail
    requires slot * MAX_DATA_SIZE <= lo <= hi <= slot * MAX_DATA_SIZE + MAX_DATA_SIZE
    ensures Shaped(Post(r, e).0) && Post(r, e).0.data[lo..hi] == r.data[lo..hi]
  {
    BuffersApart(slot, r.tail);
    if Post(r, e).1 && e.DataBlock? {
      SpliceElsewhere(r.data, r.tail * MAX_DATA_SIZE, Payload(r.data, e), lo, hi);
    }
  }

  lemma TailIsFree(r: Ring, i: nat)
    requires Shaped(r) && i < r.count < QUEUE_LENGTH
    ensures SlotOf(r, i) != r.tail
  {
    SlotsDiffer(r, i, r.count);
  }

  /** Any post, accepted or not, leaves every queued message as it was. */
  lemma PostKeepsQueued(r: Ring, e: Event, i: nat)
    requires Valid(r) && Postable(e) && i < r.count
    ensures Shaped(Post(r, e).0) && i < Post(r, e).0.count
    ensures Queued(Post(r, e).0, i) == Queued(r, i)
    ensures Owned(Post(r, e).0.slots[SlotOf(r, i)], SlotOf(r, i))
  {
    if r.count < QUEUE_LENGTH {
      TailIsFree(r, i);
      var s := r.slots[SlotOf(r, i)];
      assert Owned(s, SlotOf(r, i));
      PostKeepsOtherBuffers(r, e, SlotOf(r, i), SlotOf(r, i) * MAX_DATA_SIZE,
                            SlotOf(r, i) * MAX_DATA_SIZE + if s.DataBlock? then s.length else 0);
    }
  }

  lemma PostedIsLast(r: Ring, e: Event)
    requires Valid(r) && Postable(e) && Post(r, e).1
    ensures Shaped(Post(r, e).0) && Queued(Post(r, e).0, r.count) == MessageOf(r.data, e)
    ensures Owned(Post(r, e).0.slots[r.tail], r.tail)
  {
    if e.DataBlock? {
      SpliceThere(r.data, r.tail * MAX_DATA_SIZE, Payload(r.data, e));
    }
  }

  /** A post is accepted exactly when there is room and the event is in order; then it joins the queue at the end,
      with the bytes as posted, and otherwise the queue is as it was. */
  lemma PostAppends(r: Ring, e: Event)
    requires Valid(r) && Postable(e)
    ensures var (after, ok) := Post(r, e);
            && Valid(after) && (ok <==> r.count < 8 && (e.DataBlock? ==> !e.data.Null? && 0 < e.length <= 512)) && (ok ==> Acceptable(e))
            && Contents(after) == if ok then Contents(r) + [MessageOf(r.data, e)] else Contents(r)
  {
    assert Acceptable(e) <==> (e.DataBlock? ==> !e.data.Null? && 0 < e.length <= 512);
    hide Queued, Owned, Seen, MessageOf, Splice, Around, Acceptable;
    var (after, ok) := Post(r, e);
    forall i | 0 <= i < r.count ensures Queued(after, i) == Queued(r, i) && Owned(after.slots[SlotOf(r, i)], SlotOf(r, i)) {
      PostKeepsQueued(r, e, i);
    }
    if ok { PostedIsLast(r, e); }
    assert SlotOf(r, r.count) == r.tail;
    forall i | 0 <= i < after.count ensures Owned(after.slots[SlotOf(after, i)], SlotOf(after, i)) {
      assert SlotOf(after, i) == SlotOf(r, i);
    }
  }

  /** An event that was received can be posted again: it is delivered again as it then reads. */
  lemma RepostDelivers(r: Ring, e: Event)
    requires Valid(r) && Postable(e) && e.DataBlock? && e.data.Buffer? && Post(r, e).1
    ensures Valid(Post(r, e).0) && Contents(Post(r, e).0) == Contents(r) + [Seen(r.data, e)]
  {
    PostAppends(r, e);
  }

  /** A receive takes the first message off the queue; its bytes can be read where the event points. */
  lemma ReceiveTakes(r: Ring)
    requires Valid(r)
    ensures var (after, got) := Receive(r);
            && Valid(after) && (got.Some? <==> r.count > 0)
            && (got.Some? ==> Contents(r) == [Seen(after.data, got.value)] + Contents(after))
            && (got.None? ==> after == r)
  {
    var (after, got) := Receive(r);
    if got.Some? {
      forall i | 0 <= i < after.count ensures SlotOf(after, i) == SlotOf(r, i + 1) {
        ShiftedSlot(r, i);
      }
      assert SlotOf(r, 0) == r.head;
    }
  }

  lemma ShiftedSlot(r: Ring, i: nat)
    requires Shaped(r) && r.count > 0
    requires i < QUEUE_LENGTH
    ensures SlotOf(Receive(r).0, i) == SlotOf(r, i + 1)
  {
    hide Around;
  }

  // ----- whole runs -----

  datatype Step = Posting(event: Event) | Receiving

  predicate AllPostable(steps: seq<Step>) {
    forall i :: 0 <= i < |steps| && steps[i].Posting? ==> Postable(steps[i].event)
  }

  function Next(r: Ring, step: Step): Ring
    requires Shaped(r) && (step.Posting? ==> Postable(step.event))
  {
    match step
    case Posting(e) => Post(r, e).0
    case Receiving => Receive(r).0
  }

  lemma NextIsShaped(r: Ring, step: Step)
    requires Shaped(r) && (step.Posting? ==> Postable(step.event))
    ensures Shaped(Next(r, step))
  {
    hide Around, Splice;
  }

  function Run(r: Ring, steps: seq<Step>): (after: Ring)
    requires Shaped(r) && AllPostable(steps)
    ensures Shaped(after)
    decreases |steps|
  {
    if steps == [] then r else NextIsShaped(r, steps[0]); Run(Next(r, steps[0]), steps[1..])
  }

  /** The messages of the accepted posts of a run. */
  function AcceptedMessages(r: Ring, steps: seq<Step>): seq<Message>
    requires Shaped(r) && AllPostable(steps)
    decreases |steps|
  {
    if steps == [] then []
    else
      NextIsShaped(r, steps[0]);
      (if steps[0].Posting? && Post(r, steps[0].event).1 && Acceptable(steps[0].event) then [MessageOf(r.data, steps[0].event)] else [])
      + AcceptedMessages(Next(r, steps[0]), steps[1..])
  }

  /** What the receives of a run deliver, read as it is received. */
  function Delivered(r: Ring, steps: seq<Step>): seq<Message>
    requires Shaped(r) && AllPostable(steps)
    decreases |steps|
  {
    if steps == [] then []
    else
      NextIsShaped(r, steps[0]);
      (if steps[0].Receiving? && Receive(r).1.Some? then [Seen(r.data, Receive(r).1.value)] else [])
      + Delivered(Next(r, steps[0]), steps[1..])
  }

  /** First in, first out, for every run: what was delivered and what is still queued is what was queued before and
      what has been accepted since, in order and with the bytes as posted. */
  lemma {:induction false} FirstInFirstOut(r: Ring, steps: seq<Step>)
    requires Valid(r) && AllPostable(steps)
    ensures Valid(Run(r, steps))
    ensures Delivered(r, steps) + Contents(Run(r, steps)) == Contents(r) + AcceptedMessages(r, steps)
    decreases |steps|
  {
    hide Contents, Post, Receive, Seen, MessageOf, Owned;
    if steps == [] {
      assert Contents(r) + [] == Contents(r) && [] + Contents(r) == Contents(r);
    } else {
      NextIsShaped(r, steps[0]);
      var next, rest := Next(r, steps[0]), steps[1..];
      match steps[0]
      case Posting(e) =>
        PostAppends(r, e);
        FirstInFirstOut(next, rest);
        QueueGrows(Contents(r), if Post(r, e).1 then [MessageOf(r.data, e)] else [], AcceptedMessages(next, rest));
        assert [] + Delivered(next, rest) == Delivered(next, rest);
      case Receiving =>
        ReceiveTakes(r);
        ReceiveKeepsData(r);
        FirstInFirstOut(next, rest);
        assert [] + AcceptedMessages(next, rest) == AcceptedMessages(next, rest);
        QueueShrinks(if Receive(r).1.Some? then [Seen(r.data, Receive(r).1.value)] else [], Contents(next), Contents(r),
                     Delivered(next, rest), Contents(Run(next, rest)), AcceptedMessages(next, rest));
    }
  }

  lemma QueueGrows(q: seq<Message>, one: seq<Message>, more: seq<Message>)
    ensures q + one + more == q + (one + more) && q + [] == q
  {
  }

  lemma QueueShrinks(one: seq<Message>, next: seq<Message>, q: seq<Message>, delivered: seq<Message>, final: seq<Message>,
                     accepted: seq<Message>)
    requires one + next == q && delivered + final == next + accepted
    ensures (one + delivered) + final == q + accepted
  {
    assert (one + delivered) + final == one + (delivered + final);
    assert one + (next + accepted) == (one + next) + accepted;
  }

  lemma ReceiveKeepsData(r: Ring)
    requires Shaped(r)
    ensures Receive(r).0.data == r.data
    ensures Receive(r).1.None? ==> [] + Contents(Receive(r).0) == Contents(r)
  {
  }

  // ----- rejected posts -----

  /** The same to every reader: only headers of free slots may differ. */
  ghost predicate LooksLike(a: Ring, b: Ring) {
    && Shaped(a) && Shaped(b)
    && a.head == b.head && a.tail == b.tail && a.count == b.count && a.data == b.data
    && forall i :: 0 <= i < a.count ==> a.slots[SlotOf(a, i)] == b.slots[SlotOf(b, i)]
  }

  /** A rejected post changes nothing a reader can see. */
  lemma RejectedPostUnseen(r: Ring, e: Event)
    requires Shaped(r) && Postable(e) && !Post(r, e).1
    ensures LooksLike(Post(r, e).0, r)
  {
    if r.count < QUEUE_LENGTH {
      forall i | 0 <= i < r.count ensures SlotOf(r, i) != r.tail { TailIsFree(r, i); }
    }
  }

  lemma PostsAlike(a: Ring, b: Ring, e: Event)
    requires LooksLike(a, b) && Postable(e)
    ensures Post(a, e).1 == Post(b, e).1 && LooksLike(Post(a, e).0, Post(b, e).0)
  {
    hide Splice, Around, Acceptable, Postable;
    NextIsShaped(a, Posting(e));
    NextIsShaped(b, Posting(e));
    if a.count < QUEUE_LENGTH {
      forall i | 0 <= i < a.count ensures SlotOf(a, i) != a.tail && SlotOf(a, i) == SlotOf(b, i) { TailIsFree(a, i); }
      assert SlotOf(a, a.count) == a.tail;
      var x, y := Post(a, e).0, Post(b, e).0;
      forall i | 0 <= i < x.count ensures x.slots[SlotOf(x, i)] == y.slots[SlotOf(y, i)] {
        assert SlotOf(x, i) == SlotOf(a, i) && SlotOf(y, i) == SlotOf(b, i);
      }
    }
  }

  lemma ReceivesAlike(a: Ring, b: Ring)
    requires LooksLike(a, b)
    ensures Receive(a).1 == Receive(b).1 && LooksLike(Receive(a).0, Receive(b).0)
  {
    hide Around;
    NextIsShaped(a, Receiving);
    NextIsShaped(b, Receiving);
    if a.count > 0 {
      assert SlotOf(a, 0) == a.head && SlotOf(b, 0) == b.head;
      forall i | 0 <= i < a.count - 1 ensures SlotOf(Receive(a).0, i) == SlotOf(a, i + 1) { ShiftedSlot(a, i); }
      forall i | 0 <= i < a.count - 1 ensures SlotOf(Receive(b).0, i) == SlotOf(b, i + 1) { ShiftedSlot(b, i); }
    }
  }

  /** So a run goes on, and delivers, as if the rejected post had never been tried. */
  lemma {:induction false} RunsAlike(a: Ring, b: Ring, steps: seq<Step>)
    requires LooksLike(a, b) && AllPostable(steps)
    ensures LooksLike(Run(a, steps), Run(b, steps))
    ensures Delivered(a, steps) == Delivered(b, steps)
    decreases |steps|
  {
    hide Post, Receive, Seen, Shaped;
    if steps != [] {
      LookShaped(a, b);
      NextIsShaped(a, steps[0]);
      NextIsShaped(b, steps[0]);
      match steps[0] {
        case Posting(e) => PostsAlike(a, b, e);
        case Receiving => ReceivesAlike(a, b);
      }
      assert a.data == b.data;
      RunsAlike(Next(a, steps[0]), Next(b, steps[0]), steps[1..]);
    }
  }

  lemma LookShaped(a: Ring, b: Ring)
    requires LooksLike(a, b)
    ensures Shaped(a) && Shaped(b)
  {
  }

  lemma RejectedPostIgnored(r: Ring, e: Event, steps: seq<Step>)
    requires Shaped(r) && Postable(e) && !Post(r, e).1 && AllPostable(steps)
    ensures Shaped(Post(r, e).0) && Delivered(Post(r, e).0, steps) == Delivered(r, steps)
  {
    RejectedPostUnseen(r, e);
    RunsAlike(Post(r, e).0, r, steps);
  }

  // ----- the life of a delivered payload -----

  function AcceptedCount(r: Ring, steps: seq<Step>): nat
    requires Shaped(r) && AllPostable(steps)
    decreases |steps|
  {
    if steps == [] then 0
    else
      NextIsShaped(r, steps[0]);
      (if steps[0].Posting? && Post(r, steps[0].event).1 then 1 else 0) + AcceptedCount(Next(r, steps[0]), steps[1..])
  }

  /** How many accepted posts it takes to get to a slot. */
  function Distance(r: Ring, slot: nat): nat
    requires Shaped(r) && slot < QUEUE_LENGTH
  {
    Around(slot + QUEUE_LENGTH - r.tail)
  }

  lemma DistanceStep(r: Ring, step: Step, slot: nat)
    requires Shaped(r) && (step.Posting? ==> Postable(step.event)) && slot < QUEUE_LENGTH
    ensures Shaped(Next(r, step))
    ensures var accepted := step.Posting? && Post(r, step.event).1;
            && (!accepted ==> Next(r, step).tail == r.tail)
            && (accepted && Distance(r, slot) > 0 ==> slot != r.tail && Distance(Next(r, step), slot) == Distance(r, slot) - 1)
  {
    hide Around, Splice, Acceptable;
    NextIsShaped(r, step);
  }

  lemma StepKeepsBuffer(r: Ring, step: Step, slot: nat)
    requires Shaped(r) && (step.Posting? ==> Postable(step.event)) && slot < QUEUE_LENGTH
    requires step.Posting? && Post(r, step.event).1 ==> slot != r.tail
    ensures Shaped(Next(r, step)) && BufferOf(Next(r, step), slot) == BufferOf(r, slot)
  {
    hide Splice;
    SlotInData(slot);
    if step.Posting? && Post(r, step.event).1 {
      PostKeepsOtherBuffers(r, step.event, slot, slot * MAX_DATA_SIZE, slot * MAX_DATA_SIZE + MAX_DATA_SIZE);
    }
  }

  /** A buffer is not written before the accepted posts have come round to its slot. */
  lemma {:induction false} BufferKept(r: Ring, steps: seq<Step>, slot: nat)
    requires Shaped(r) && AllPostable(steps) && slot < QUEUE_LENGTH
    requires AcceptedCount(r, steps) <= Distance(r, slot)
    ensures BufferOf(Run(r, steps), slot) == BufferOf(r, slot)
    ensures AcceptedCount(r, steps) == Distance(r, slot) ==> Run(r, steps).tail == slot
    decreases |steps|
  {
    hide Next, Post, BufferOf;
    if steps != [] {
      NextIsShaped(r, steps[0]);
      DistanceStep(r, steps[0], slot);
      StepKeepsBuffer(r, steps[0], slot);
      BufferKept(Next(r, steps[0]), steps[1..], slot);
    }
  }

  /** The buffer of an event received from a queue of c messages stays intact through the next 8 - c accepted posts,
      whatever else happens meanwhile. */
  lemma PayloadLifetime(r: Ring, steps: seq<Step>)
    requires Valid(r) && r.count > 0 && AllPostable(steps)
    requires Shaped(Receive(r).0) && AcceptedCount(Receive(r).0, steps) <= QUEUE_LENGTH - r.count
    ensures var e := Receive(r).1.value; Seen(Run(Receive(r).0, steps).data, e) == Seen(r.data, e)
    ensures AcceptedCount(Receive(r).0, steps) == QUEUE_LENGTH - r.count ==> Run(Receive(r).0, steps).tail == r.head
  {
    HeadIsOwned(r);
    hide Run, AcceptedCount, Post, Around, Owned, BufferOf;
    var after, e := Receive(r).0, Receive(r).1.value;
    BufferKept(after, steps, r.head);
    BufferIsSeen(r, Run(after, steps), e);
  }

  lemma HeadIsOwned(r: Ring)
    requires Valid(r) && r.count > 0
    ensures var (after, got) := Receive(r);
            && Shaped(after) && got.Some? && Owned(got.value, r.head)
            && BufferOf(after, r.head) == BufferOf(r, r.head) && Distance(after, r.head) == QUEUE_LENGTH - r.count
  {
    hide Around, Owned;
    assert SlotOf(r, 0) == r.head;
  }

  lemma BufferIsSeen(r: Ring, final: Ring, e: Event)
    requires Shaped(r) && Shaped(final) && Owned(e, r.head) && BufferOf(final, r.head) == BufferOf(r, r.head)
    ensures Seen(final.data, e) == Seen(r.data, e)
  {
    SlotInData(r.head);
    if e.DataBlock? {
      var at := r.head * MAX_DATA_SIZE;
      SliceOfSlice(final.data, at, at + MAX_DATA_SIZE, 0, e.length);
      SliceOfSlice(r.data, at, at + MAX_DATA_SIZE, 0, e.length);
    }
  }

  /** The bound is tight: after exactly 8 - c accepted posts, one more data block lands in that very buffer. */
  lemma PayloadLifetimeIsTight(r: Ring, steps: seq<Step>, next: Event)
    requires Valid(r) && r.count > 0 && AllPostable(steps)
    requires Shaped(Receive(r).0) && AcceptedCount(Receive(r).0, steps) == QUEUE_LENGTH - r.count
    requires next.DataBlock? && Postable(next) && Post(Run(Receive(r).0, steps), next).1
    ensures var final := Run(Receive(r).0, steps + [Posting(next)]);
            final.data[r.head * MAX_DATA_SIZE..r.head * MAX_DATA_SIZE + next.length]
            == Payload(Run(Receive(r).0, steps).data, next)
  {
    hide Splice, AcceptedCount;
    var after := Receive(r).0;
    PayloadLifetime(r, steps);
    RunAppend(after, steps, Posting(next));
    SpliceThere(Run(after, steps).data, r.head * MAX_DATA_SIZE, Payload(Run(after, steps).data, next));
  }

  lemma {:induction false} RunAppend(r: Ring, steps: seq<Step>, step: Step)
    requires Shaped(r) && AllPostable(steps) && (step.Posting? ==> Postable(step.event))
    ensures AllPostable(steps + [step]) && Run(r, steps + [step]) == Next(Run(r, steps), step)
    decreases |steps|
  {
    hide Next;
    if steps == [] {
      assert [] + [step] == [step] && [step][1..] == [];
      NextIsShaped(r, step);
      assert Run(Next(r, step), []) == Next(r, step);
    } else {
      NextIsShaped(r, steps[0]);
      RunAppend(Next(r, steps[0]), steps[1..], step);
      assert (steps + [step])[1..] == steps[1..] + [step];
    }
  }

  // ----- the queue as it is kept in memory -----

  class Bus {
    const slots: array<Event>
    const data: array<byte>
    var head: nat
    var tail: nat
    var count: nat

    ghost function Value(): Ring
      reads this, slots, data
    {
      Ring(slots[..], data[..], head, tail, count)
    }

    ghost predicate Ready()
      reads this, slots, data
    {
      Valid(Value())
    }

    constructor ()
      ensures fresh(slots) && fresh(data) && Value() == EMPTY && Ready()
    {
      slots := new Event[QUEUE_LENGTH](_ => Begin(0, 0, 0, 0));
      data := new byte[DATA_SIZE](_ => 0);
      head, tail, count := 0, 0, 0;
    }

    method CopyIn(at: nat, bytes: seq<byte>)
      requires at + |bytes| <= data.Length
      modifies data
      ensures data[..] == Splice(old(data[..]), at, bytes)
    {
      forall i | 0 <= i < |bytes| {
        data[at + i] := bytes[i];
      }
    }

    /** A null event is refused without a look at the queue. */
    method PostOtaEvent(event: Option<Event>) returns (posted: bool)
      requires Ready() && (event.Some? ==> Postable(event.value))
      modifies this`tail, this`count, slots, data
      ensures event.None? ==> !posted && Value() == old(Value())
      ensures event.Some? ==> (Value(), posted) == Post(old(Value()), event.value)
      ensures Ready()
    {
      hide Owned, Splice, Contents;
      if event.None? {
        return false;
      }
      ghost var before := Value();
      var e := event.value;
      PostAppends(before, e);
      if count >= QUEUE_LENGTH {
        return false;
      }
      slots[tail] := e;
      assert slots[..] == before.slots[tail := e];
      if e.DataBlock? {
        if e.data.Null? || e.length == 0 || e.length > MAX_DATA_SIZE {
          return false;
        }
        SlotInData(tail);
        var bytes := if e.data.Memory? then e.data.bytes[..e.length] else data[e.data.offset..e.data.offset + e.length];
        assert bytes == Payload(before.data, e);
        CopyIn(tail * MAX_DATA_SIZE, bytes);
        slots[tail] := e.(data := Buffer(tail * MAX_DATA_SIZE));
        assert slots[..] == before.slots[tail := e.(data := Buffer(tail * MAX_DATA_SIZE))];
      }
      tail := (tail + 1) % QUEUE_LENGTH;
      count := count + 1;
      posted := true;
    }

    method TryReceiveOtaEvent() returns (event: Option<Event>)
      requires Ready()
      modifies this`head, this`count
      ensures (Value(), event) == Receive(old(Value())) && Ready()
    {
      ReceiveTakes(Value());
      if count == 0 {
        return None;
      }
      event := Some(slots[head]);
      head := (head + 1) % QUEUE_LENGTH;
      count := count - 1;
    }
  }
}
