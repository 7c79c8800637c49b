/**
  A run in which a move comes late: two publications copy their files while sweeps defer their
  records twice, and a third one is given a slot that the first still believes its own.
 */
module QueueLateMoves {
  import opened Options
  import opened QueueModel
  import opened QueueAccounting
  import opened QueueRecovery
  import opened QueueRuns

  // ---------------------------------------------------------------- events that go through

  lemma PutGoes(d: Disk, lim: Limits, e: Event)
    requires Accurate(d, lim) && e.call.Put? && e.cut.None? && HasRoom(d, lim, e.call.record.size)
    requires forall s :: s in d.slots ==> d.slots[s].id != e.call.record.id
    requires Slot(e.call.lane, d.summary.Of(e.call.lane).write) !in d.slots
    ensures var c := e.call;
      var slot := Slot(c.lane, d.summary.Of(c.lane).write);
      && Listed(d, lim, e)
      && Step(d, lim, e) == Disk(d.slots[slot := Prepare(c.record, d.summary.nextSequence)], {},
                                 AfterStore(d.summary, lim.capacity, c.lane, slot.cursor, c.record.size))
  {
    EnqueueEffect(d, lim, e.call.lane, e.call.record, ById);
    assert OpsOf(d, lim, e)[..|OpsOf(d, lim, e)|] == OpsOf(d, lim, e);
  }

  lemma ForwardGoes(d: Disk, lim: Limits, c: Call)
    requires Accurate(d, lim) && c.Shift? && HasRoom(d, lim, c.size)
    requires Slot(c.lane, d.summary.Of(c.lane).write) !in d.slots
    requires forall s :: s in d.slots && s.lane == c.lane && d.slots[s].id == c.item.id ==>
      d.slots[s].generation != c.item.generation + 1
    ensures var slot := Slot(c.lane, d.summary.Of(c.lane).write);
      && Forward(d, lim, c).result.Stored?
      && Run(d, Forward(d, lim, c).ops)
         == Disk(d.slots[slot := Prepare(Moved(c.item, c.size, c.dueAt, c.body), d.summary.nextSequence)], {},
                 AfterStore(d.summary, lim.capacity, c.lane, slot.cursor, c.size))
  {
    ForwardEffect(d, lim, c);
    EnqueueEffect(d, lim, c.lane, Moved(c.item, c.size, c.dueAt, c.body), ByGeneration);
  }

  // The item is still in its slot.
  lemma MoveGoes(d: Disk, lim: Limits, e: Event)
    requires Accurate(d, lim) && e.call.Shift? && e.cut.None? && HasRoom(d, lim, e.call.size)
    requires Slot(e.call.lane, d.summary.Of(e.call.lane).write) !in d.slots
    requires forall s :: s in d.slots && s.lane == e.call.lane && d.slots[s].id == e.call.item.id ==>
      d.slots[s].generation != e.call.item.generation + 1
    requires Matches(d.slots, e.call.slot, e.call.item)
    ensures var c := e.call;
      var to := Slot(c.lane, d.summary.Of(c.lane).write);
      var stored := AfterStore(d.summary, lim.capacity, c.lane, to.cursor, c.size);
      && Listed(d, lim, e)
      && Step(d, lim, e)
         == Disk(d.slots[to := Prepare(Moved(c.item, c.size, c.dueAt, c.body), d.summary.nextSequence)] - {c.slot}, {},
                 AfterRemove(stored, lim.capacity, c.slot, d.slots[c.slot].size))
  {
    var c := e.call;
    var p := Forward(d, lim, c);
    ForwardGoes(d, lim, c);
    assert OpsOf(d, lim, e)[..|OpsOf(d, lim, e)|] == OpsOf(d, lim, e);
    RunConcat(d, p.ops, CompletionOps(Run(d, p.ops), lim, c.slot, c.item, e.listing));
    CompleteEffect(Run(d, p.ops), lim, c.slot);
  }

  // Its slot was emptied: stored all the same, and then the summary is rebuilt.
  lemma LateMoveRebuilds(d: Disk, lim: Limits, e: Event)
    requires Accurate(d, lim) && e.call.Shift? && e.cut.None? && HasRoom(d, lim, e.call.size)
    requires Slot(e.call.lane, d.summary.Of(e.call.lane).write) !in d.slots
    requires forall s :: s in d.slots && s.lane == e.call.lane && d.slots[s].id == e.call.item.id ==>
      d.slots[s].generation != e.call.item.generation + 1
    requires var between := Run(d, Forward(d, lim, e.call).ops); e.call.slot !in between.slots && Lists(between, e.listing)
    ensures Listed(d, lim, e)
    ensures Step(d, lim, e) == Reconciled(Run(d, Forward(d, lim, e.call).ops), lim.capacity, e.listing.found)
  {
    var c := e.call;
    var p := Forward(d, lim, c);
    ForwardGoes(d, lim, c);
    assert OpsOf(d, lim, e)[..|OpsOf(d, lim, e)|] == OpsOf(d, lim, e);
    RunConcat(d, p.ops, CompletionOps(Run(d, p.ops), lim, c.slot, c.item, e.listing));
    EnqueueKeeps(d, lim, c.lane, Moved(c.item, c.size, c.dueAt, c.body), ByGeneration);
    CompletionEffect(Run(d, p.ops), lim, c.slot, c.item, e.listing);
  }

  // Its slot was used again: stored all the same, and then refused.
  lemma LateMoveIsRefused(d: Disk, lim: Limits, e: Event)
    requires Accurate(d, lim) && e.call.Shift? && e.cut.None? && HasRoom(d, lim, e.call.size)
    requires Slot(e.call.lane, d.summary.Of(e.call.lane).write) !in d.slots
    requires forall s :: s in d.slots && s.lane == e.call.lane && d.slots[s].id == e.call.item.id ==>
      d.slots[s].generation != e.call.item.generation + 1
    requires e.call.slot in d.slots && !Matches(d.slots, e.call.slot, e.call.item)
    ensures Listed(d, lim, e)
    ensures Step(d, lim, e) == Run(d, Forward(d, lim, e.call).ops)
  {
    var c := e.call;
    var p := Forward(d, lim, c);
    ForwardGoes(d, lim, c);
    assert OpsOf(d, lim, e)[..|OpsOf(d, lim, e)|] == OpsOf(d, lim, e);
    assert p.ops + [] == p.ops;
  }

  // ---------------------------------------------------------------- events by what they do

  // The slot at the lane's write cursor, free and with room for the record.
  predicate Free(d: Disk, lim: Limits, lane: Lane, slot: Slot, size: nat) {
    slot == Slot(lane, d.summary.Of(lane).write) && slot !in d.slots && HasRoom(d, lim, size)
  }

  predicate NotYet(d: Disk, c: Call)
    requires c.Shift?
  {
    forall s :: s in d.slots && s.lane == c.lane && d.slots[s].id == c.item.id ==>
      d.slots[s].generation != c.item.generation + 1
  }

  // With the record of the next generation in its slot.
  function Moving(d: Disk, lim: Limits, c: Call, slot: Slot): Disk
    requires lim.capacity > 0 && c.Shift?
  {
    Disk(d.slots[slot := Prepare(Moved(c.item, c.size, c.dueAt, c.body), d.summary.nextSequence)], {},
         AfterStore(d.summary, lim.capacity, slot.lane, slot.cursor, c.size))
  }

  // A record stored at the slot, and what then becomes of the old one.
  ghost function Effect(d: Disk, lim: Limits, e: Event, slot: Slot): Option<Disk>
    requires lim.capacity > 0
  {
    if e.cut.Some? then None
    else
      match e.call
      case Put(lane, r) =>
        if Free(d, lim, lane, slot, r.size) && (forall s :: s in d.slots ==> d.slots[s].id != r.id) then
          Some(Disk(d.slots[slot := Prepare(r, d.summary.nextSequence)], {},
                    AfterStore(d.summary, lim.capacity, slot.lane, slot.cursor, r.size)))
        else None
      case Shift(from, item, lane, size, _, _) =>
        if !(Free(d, lim, lane, slot, size) && NotYet(d, e.call)) then None
        else
          var m := Moving(d, lim, e.call, slot);
          if Matches(d.slots, from, item) then
            Some(Disk(m.slots - {from}, {}, AfterRemove(m.summary, lim.capacity, from, d.slots[from].size)))
          else if from in d.slots then Some(m)
          else if from != slot && Covers(m.slots, e.listing.found) then
            Some(Reconciled(m, lim.capacity, e.listing.found))
          else None
      case _ => None
  }

  lemma EffectIsStep(d: Disk, lim: Limits, e: Event, slot: Slot, after: Disk)
    requires Accurate(d, lim) && Effect(d, lim, e, slot) == Some(after)
    ensures Listed(d, lim, e) && Step(d, lim, e) == after && Accurate(after, lim)
  {
    if e.call.Put? {
      PutGoes(d, lim, e);
    } else {
      ForwardGoes(d, lim, e.call);
      if Matches(d.slots, e.call.slot, e.call.item) {
        MoveGoes(d, lim, e);
      } else if e.call.slot in d.slots {
        LateMoveIsRefused(d, lim, e);
      } else {
        LateMoveRebuilds(d, lim, e);
      }
    }
    StepKeeps(d, lim, e);
  }

  function Sums(next: nat, ready: LaneState, deferred: LaneState): Summary { Summary(next, 0, ready, deferred, Nothing()) }

  function Nothing(): LaneState { LaneState(0, 0, 0, 0) }

  function Empty(): Disk { Disk(map[], {}, Sums(0, Nothing(), Nothing())) }

  lemma EmptyIsEmpty()
    ensures Empty() == EMPTY_DISK
  {
  }

  // From the empty queue, event by event, to a disk.
  ghost predicate Passes(lim: Limits, events: seq<Event>, d: Disk)
    requires lim.capacity > 0
  {
    if |events| == 0 then d == Empty()
    else
      var e := events[|events| - 1];
      exists before {:trigger Leads(lim, before, e, d)} :: Passes(lim, events[..|events| - 1], before) && Leads(lim, before, e, d)
  }

  ghost predicate Leads(lim: Limits, d: Disk, e: Event, after: Disk)
    requires lim.capacity > 0
  {
    exists slot :: Effect(d, lim, e, slot) == Some(after)
  }

  lemma OneMore(lim: Limits, events: seq<Event>, d: Disk, e: Event, slot: Slot, after: Disk)
    requires lim.capacity > 0 && Passes(lim, events, d) && Effect(d, lim, e, slot) == Some(after)
    ensures Passes(lim, events + [e], after)
  {
    var longer := events + [e];
    assert longer[..|longer| - 1] == events && longer[|longer| - 1] == e;
    assert Leads(lim, d, e, after);
  }

  lemma {:induction false} PassesIsRun(lim: Limits, events: seq<Event>, d: Disk)
    requires Sensible(lim) && Passes(lim, events, d)
    ensures AllListed(EMPTY_DISK, lim, events) && Steps(EMPTY_DISK, lim, events) == d && Accurate(d, lim)
    decreases |events|
  {
    if |events| == 0 {
      EmptyIsEmpty();
      EmptyIsAccurate(lim);
    } else {
      var n := |events| - 1;
      var before :| Passes(lim, events[..n], before) && Leads(lim, before, events[n], d);
      var slot :| Effect(before, lim, events[n], slot) == Some(d);
      PassesIsRun(lim, events[..n], before);
      EffectIsStep(before, lim, events[n], slot, d);
    }
  }

  // ---------------------------------------------------------------- the run

  // Room for four records, and more slots than that.
  predicate Roomy(lim: Limits) {
    4 < lim.capacity && 4 <= lim.maxRecords <= lim.capacity && 1 <= lim.recordMaxBytes && 4 <= lim.maxRecordBytes
  }

  // A publication's record, without its source, body 0, or with it, body 1.
  function P(id: nat, generation: nat, sequence: nat, body: nat): Record { Record(id, generation, sequence, 1, None, body) }

  function Begin(id: nat): Event { Event(Put(Ready, NewRecord(id, 0, 1, None, 0)), Listing([], []), None, [], []) }

  function Defer(slot: Slot, item: Record): Event {
    Event(Shift(slot, item, Deferred, 1, None, 0), Listing([], []), None, [], [])
  }

  // The publication has copied its file and moves the record it began with.
  function Finish(slot: Slot, item: Record, found: seq<Slot>): Event {
    Event(Shift(slot, item, Ready, 1, None, 1), Listing([], found), None, [], [])
  }

  function R(n: nat): Slot { Slot(Ready, n) }

  function D(n: nat): Slot { Slot(Deferred, n) }

  function Begun(a: nat, b: nat): Disk {
    Disk(map[R(0) := P(a, 0, 0, 0), R(1) := P(b, 0, 1, 0)], {}, Sums(2, LaneState(0, 2, 2, 2), Nothing()))
  }

  function DeferredOnce(a: nat, b: nat): Disk {
    Disk(map[D(0) := P(a, 1, 2, 0), D(1) := P(b, 1, 3, 0)], {}, Sums(4, LaneState(2, 2, 0, 0), LaneState(0, 2, 2, 2)))
  }

  function DeferredTwice(a: nat, b: nat): Disk {
    Disk(map[D(2) := P(a, 2, 4, 0), D(3) := P(b, 2, 5, 0)], {}, Sums(6, LaneState(2, 2, 0, 0), LaneState(2, 4, 2, 2)))
  }

  // The second publication finished: its record lost to the deferred one, and the ready lane
  // starts over.
  function SecondFinished(a: nat, b: nat): Disk {
    Disk(map[D(2) := P(a, 2, 4, 0), D(3) := P(b, 2, 5, 0)], {}, Sums(6, Nothing(), LaneState(2, 4, 2, 2)))
  }

  function ThirdBegun(a: nat, b: nat, c: nat): Disk {
    Disk(map[R(0) := P(c, 0, 6, 0), D(2) := P(a, 2, 4, 0), D(3) := P(b, 2, 5, 0)], {},
         Sums(7, LaneState(0, 1, 1, 1), LaneState(2, 4, 2, 2)))
  }

  // The first one was refused: its record is there twice.
  function FirstRefused(a: nat, b: nat, c: nat): Disk {
    Disk(map[R(0) := P(c, 0, 6, 0), R(1) := P(a, 1, 7, 1), D(2) := P(a, 2, 4, 0), D(3) := P(b, 2, 5, 0)], {},
         Sums(8, LaneState(0, 2, 2, 2), LaneState(2, 4, 2, 2)))
  }

  function FinishSecond(b: nat): Event { Finish(R(1), P(b, 0, 1, 0), [R(2), D(2), D(3)]) }

  function FinishFirst(a: nat): Event { Finish(R(0), P(a, 0, 0, 0), []) }

  // Between the two of each pair.
  function OneBegun(a: nat): Disk { Disk(map[R(0) := P(a, 0, 0, 0)], {}, Sums(1, LaneState(0, 1, 1, 1), Nothing())) }

  function OneDeferred(a: nat, b: nat): Disk {
    Disk(map[R(1) := P(b, 0, 1, 0), D(0) := P(a, 1, 2, 0)], {}, Sums(3, LaneState(1, 2, 1, 1), LaneState(0, 1, 1, 1)))
  }

  function OneDeferredAgain(a: nat, b: nat): Disk {
    Disk(map[D(1) := P(b, 1, 3, 0), D(2) := P(a, 2, 4, 0)], {}, Sums(5, LaneState(2, 2, 0, 0), LaneState(1, 3, 2, 2)))
  }

  function Beginning(a: nat, b: nat): seq<Event> { [] + [Begin(a)] + [Begin(b)] }

  function Deferring(a: nat, b: nat): seq<Event> {
    Beginning(a, b) + [Defer(R(0), P(a, 0, 0, 0))] + [Defer(R(1), P(b, 0, 1, 0))]
  }

  function DeferringAgain(a: nat, b: nat): seq<Event> {
    Deferring(a, b) + [Defer(D(0), P(a, 1, 2, 0))] + [Defer(D(1), P(b, 1, 3, 0))]
  }

  function TheRun(a: nat, b: nat, c: nat): seq<Event> {
    DeferringAgain(a, b) + [FinishSecond(b)] + [Begin(c)] + [FinishFirst(a)]
  }

  lemma FirstBegins(lim: Limits, a: nat)
    requires Roomy(lim)
    ensures Effect(Empty(), lim, Begin(a), R(0)) == Some(OneBegun(a))
  {
    var d, r := Empty(), Begin(a).call.record;
    assert d.slots[R(0) := Prepare(r, d.summary.nextSequence)] == OneBegun(a).slots;
  }

  lemma SecondBegins(lim: Limits, a: nat, b: nat)
    requires Roomy(lim) && a != b
    ensures Effect(OneBegun(a), lim, Begin(b), R(1)) == Some(Begun(a, b))
  {
    var d, r := OneBegun(a), Begin(b).call.record;
    assert d.slots[R(1) := Prepare(r, d.summary.nextSequence)] == Begun(a, b).slots;
  }

  lemma FirstIsDeferred(lim: Limits, a: nat, b: nat)
    requires Roomy(lim) && a != b
    ensures Effect(Begun(a, b), lim, Defer(R(0), P(a, 0, 0, 0)), D(0)) == Some(OneDeferred(a, b))
  {
    assert Moving(Begun(a, b), lim, Defer(R(0), P(a, 0, 0, 0)).call, D(0)).slots - {R(0)} == OneDeferred(a, b).slots;
  }

  lemma SecondIsDeferred(lim: Limits, a: nat, b: nat)
    requires Roomy(lim) && a != b
    ensures Effect(OneDeferred(a, b), lim, Defer(R(1), P(b, 0, 1, 0)), D(1)) == Some(DeferredOnce(a, b))
  {
    assert Moving(OneDeferred(a, b), lim, Defer(R(1), P(b, 0, 1, 0)).call, D(1)).slots - {R(1)} == DeferredOnce(a, b).slots;
  }

  lemma FirstIsDeferredAgain(lim: Limits, a: nat, b: nat)
    requires Roomy(lim) && a != b
    ensures Effect(DeferredOnce(a, b), lim, Defer(D(0), P(a, 1, 2, 0)), D(2)) == Some(OneDeferredAgain(a, b))
  {
    assert Moving(DeferredOnce(a, b), lim, Defer(D(0), P(a, 1, 2, 0)).call, D(2)).slots - {D(0)} == OneDeferredAgain(a, b).slots;
  }

  lemma SecondIsDeferredAgain(lim: Limits, a: nat, b: nat)
    requires Roomy(lim) && a != b
    ensures Effect(OneDeferredAgain(a, b), lim, Defer(D(1), P(b, 1, 3, 0)), D(3)) == Some(DeferredTwice(a, b))
  {
    assert Moving(OneDeferredAgain(a, b), lim, Defer(D(1), P(b, 1, 3, 0)).call, D(3)).slots - {D(1)} == DeferredTwice(a, b).slots;
  }

  // With the second publication's late record in, a rebuild keeps the deferred ones.
  lemma DeferredOnesWin(slots: map<Slot, Record>, found: seq<Slot>, a: nat, b: nat)
    requires a != b && slots == map[R(2) := P(b, 1, 6, 1), D(2) := P(a, 2, 4, 0), D(3) := P(b, 2, 5, 0)]
    requires Covers(slots, found)
    ensures Kept(slots, found) == map[D(2) := P(a, 2, 4, 0), D(3) := P(b, 2, 5, 0)]
  {
    assert NoTies(slots);
    SurvivorsAreBest(slots, found);
    assert Outranks(slots, D(3), R(2));
    assert Best(slots, D(2)) && Best(slots, D(3)) && !Best(slots, R(2));
  }

  lemma TwoAreCounted(capacity: nat, a: nat, b: nat, lane: Lane)
    requires capacity > 4
    ensures var slots := map[D(2) := P(a, 2, 4, 0), D(3) := P(b, 2, 5, 0)];
      && CountUpTo(slots, lane, capacity) == (if lane == Deferred then 2 else 0)
      && BytesUpTo(slots, lane, capacity) == (if lane == Deferred then 2 else 0)
  {
    var none: map<Slot, Record> := map[];
    EmptyCounts(lane, capacity);
    CountsAfterAdd(none, D(2), P(a, 2, 4, 0), lane, capacity);
    CountsAfterAdd(none[D(2) := P(a, 2, 4, 0)], D(3), P(b, 2, 5, 0), lane, capacity);
    assert none[D(2) := P(a, 2, 4, 0)][D(3) := P(b, 2, 5, 0)] == map[D(2) := P(a, 2, 4, 0), D(3) := P(b, 2, 5, 0)];
  }

  lemma RebuiltAnew(capacity: nat, a: nat, b: nat)
    requires capacity > 4
    ensures Rebuilt(map[D(2) := P(a, 2, 4, 0), D(3) := P(b, 2, 5, 0)], capacity, 0) == SecondFinished(a, b).summary
  {
    var slots := map[D(2) := P(a, 2, 4, 0), D(3) := P(b, 2, 5, 0)];
    TwoAreCounted(capacity, a, b, Ready);
    TwoAreCounted(capacity, a, b, Deferred);
    TwoAreCounted(capacity, a, b, Held);
    FirstIsLowest(slots, Deferred, capacity);
    LastIsHighest(slots, Deferred, capacity);
    assert Slot(Deferred, 2) in slots && Slot(Deferred, 3) in slots;
  }

  lemma RebuildDropsLateRecord(m: Disk, capacity: nat, a: nat, b: nat)
    requires capacity > 4 && a != b && m.summary.capacityEvents == 0
    requires m.slots == map[R(2) := P(b, 1, 6, 1), D(2) := P(a, 2, 4, 0), D(3) := P(b, 2, 5, 0)]
    ensures Covers(m.slots, [R(2), D(2), D(3)]) && Reconciled(m, capacity, [R(2), D(2), D(3)]) == SecondFinished(a, b)
  {
    DeferredOnesWin(m.slots, [R(2), D(2), D(3)], a, b);
    RebuiltAnew(capacity, a, b);
  }

  lemma SecondFinishes(lim: Limits, a: nat, b: nat)
    requires Roomy(lim) && a != b
    ensures Effect(DeferredTwice(a, b), lim, FinishSecond(b), R(2)) == Some(SecondFinished(a, b))
  {
    var m := Moving(DeferredTwice(a, b), lim, FinishSecond(b).call, R(2));
    assert m.slots == map[R(2) := P(b, 1, 6, 1), D(2) := P(a, 2, 4, 0), D(3) := P(b, 2, 5, 0)];
    RebuildDropsLateRecord(m, lim.capacity, a, b);
  }

  lemma ThirdBegins(lim: Limits, a: nat, b: nat, c: nat)
    requires Roomy(lim) && a != b && a != c && b != c
    ensures Effect(SecondFinished(a, b), lim, Begin(c), R(0)) == Some(ThirdBegun(a, b, c))
  {
    var d, r := SecondFinished(a, b), Begin(c).call.record;
    assert d.slots[R(0) := Prepare(r, d.summary.nextSequence)] == ThirdBegun(a, b, c).slots;
  }

  lemma FirstIsRefused(lim: Limits, a: nat, b: nat, c: nat)
    requires Roomy(lim) && a != b && a != c && b != c
    ensures Effect(ThirdBegun(a, b, c), lim, FinishFirst(a), R(1)) == Some(FirstRefused(a, b, c))
  {
    assert Moving(ThirdBegun(a, b, c), lim, FinishFirst(a).call, R(1)).slots == FirstRefused(a, b, c).slots;
  }

  lemma BothBegin(lim: Limits, a: nat, b: nat)
    requires Roomy(lim) && a != b
    ensures Passes(lim, Beginning(a, b), Begun(a, b))
  {
    var events: seq<Event> := [];
    FirstBegins(lim, a);
    OneMore(lim, events, Empty(), Begin(a), R(0), OneBegun(a));
    SecondBegins(lim, a, b);
    OneMore(lim, events + [Begin(a)], OneBegun(a), Begin(b), R(1), Begun(a, b));
  }

  lemma BothAreDeferred(lim: Limits, a: nat, b: nat)
    requires Roomy(lim) && a != b
    ensures Passes(lim, Deferring(a, b), DeferredOnce(a, b))
  {
    var events := Beginning(a, b);
    BothBegin(lim, a, b);
    FirstIsDeferred(lim, a, b);
    OneMore(lim, events, Begun(a, b), Defer(R(0), P(a, 0, 0, 0)), D(0), OneDeferred(a, b));
    SecondIsDeferred(lim, a, b);
    OneMore(lim, events + [Defer(R(0), P(a, 0, 0, 0))], OneDeferred(a, b), Defer(R(1), P(b, 0, 1, 0)), D(1), DeferredOnce(a, b));
  }

  lemma BothAreDeferredAgain(lim: Limits, a: nat, b: nat)
    requires Roomy(lim) && a != b
    ensures Passes(lim, DeferringAgain(a, b), DeferredTwice(a, b))
  {
    var events := Deferring(a, b);
    BothAreDeferred(lim, a, b);
    FirstIsDeferredAgain(lim, a, b);
    OneMore(lim, events, DeferredOnce(a, b), Defer(D(0), P(a, 1, 2, 0)), D(2), OneDeferredAgain(a, b));
    SecondIsDeferredAgain(lim, a, b);
    OneMore(lim, events + [Defer(D(0), P(a, 1, 2, 0))], OneDeferredAgain(a, b), Defer(D(1), P(b, 1, 3, 0)), D(3), DeferredTwice(a, b));
  }

  lemma TheRunPasses(lim: Limits, a: nat, b: nat, c: nat)
    requires Roomy(lim) && a != b && a != c && b != c
    ensures Passes(lim, TheRun(a, b, c), FirstRefused(a, b, c))
  {
    var events := DeferringAgain(a, b);
    BothAreDeferredAgain(lim, a, b);
    SecondFinishes(lim, a, b);
    OneMore(lim, events, DeferredTwice(a, b), FinishSecond(b), R(2), SecondFinished(a, b));
    ThirdBegins(lim, a, b, c);
    OneMore(lim, events + [FinishSecond(b)], SecondFinished(a, b), Begin(c), R(0), ThirdBegun(a, b, c));
    FirstIsRefused(lim, a, b, c);
    OneMore(lim, events + [FinishSecond(b)] + [Begin(c)], ThirdBegun(a, b, c), FinishFirst(a), R(1), FirstRefused(a, b, c));
  }

  // So it happens, under any limits with room for four records: the last move of the run is one
  // that doubles its record, the publication that makes it fails, and its deferred record stays.
  lemma LateMoveDoubles(lim: Limits, a: nat, b: nat, c: nat)
    requires Roomy(lim) && a != b && a != c && b != c
    ensures AllListed(EMPTY_DISK, lim, TheRun(a, b, c))
    ensures Steps(EMPTY_DISK, lim, TheRun(a, b, c)) == FirstRefused(a, b, c)
    ensures !IdsDistinct(FirstRefused(a, b, c).slots)
  {
    TheRunPasses(lim, a, b, c);
    PassesIsRun(lim, TheRun(a, b, c), FirstRefused(a, b, c));
    assert FirstRefused(a, b, c).slots[R(1)].id == FirstRefused(a, b, c).slots[D(2)].id;
  }

  // It is of the kind that doubles; and had the third publication not begun, the first would have
  // stored its record in the very slot it believed its own, with the same result.
  lemma BothWaysDouble(lim: Limits, a: nat, b: nat, c: nat)
    requires Roomy(lim) && a != b && a != c && b != c
    ensures Duplicates(ThirdBegun(a, b, c), lim, FinishFirst(a)) && R(0) in ThirdBegun(a, b, c).slots
    ensures Duplicates(SecondFinished(a, b), lim, FinishFirst(a)) && R(0) !in SecondFinished(a, b).slots
  {
    assert ThirdBegun(a, b, c).slots[D(2)].id == a && SecondFinished(a, b).slots[D(2)].id == a;
  }
}
