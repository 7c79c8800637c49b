/**
  In every crash-free run of the queue its summary tells the truth about its slots, the limits
  hold, and a free slot is always found.
 */
module QueueAccounting {
  import opened Options
  import opened QueueModel

  ghost predicate Addressed(slots: map<Slot, Record>, capacity: nat) {
    forall s :: s in slots ==> s.cursor < capacity
  }

  ghost predicate LaneAccurate(d: Disk, lim: Limits, lane: Lane) {
    var l := d.summary.Of(lane);
    && l.count == CountUpTo(d.slots, lane, lim.capacity)
    && l.bytes == BytesUpTo(d.slots, lane, lim.capacity)
    && l.head < lim.capacity && l.write < lim.capacity
  }

  ghost predicate SequencesDistinct(slots: map<Slot, Record>) {
    forall s, t :: s in slots && t in slots && s != t ==> slots[s].sequence != slots[t].sequence
  }

  // What the summary promises about the slots.
  ghost predicate Accurate(d: Disk, lim: Limits) {
    && Sensible(lim) && d.temps == {} && Addressed(d.slots, lim.capacity)
    && LaneAccurate(d, lim, Ready) && LaneAccurate(d, lim, Deferred) && LaneAccurate(d, lim, Held)
    && SequencesDistinct(d.slots)
    && (forall s :: s in d.slots ==> d.slots[s].sequence < d.summary.nextSequence)
    && d.summary.TotalCount() <= lim.maxRecords && d.summary.TotalBytes() <= lim.maxRecordBytes
  }

  // ---------------------------------------------------------------- counting

  lemma {:induction false} CountsAfterAdd(slots: map<Slot, Record>, slot: Slot, record: Record, lane: Lane, n: nat)
    requires slot !in slots
    ensures var here := slot.lane == lane && slot.cursor < n;
      && CountUpTo(slots[slot := record], lane, n) == CountUpTo(slots, lane, n) + (if here then 1 else 0)
      && BytesUpTo(slots[slot := record], lane, n) == BytesUpTo(slots, lane, n) + (if here then record.size else 0)
  {
    if n > 0 {
      CountsAfterAdd(slots, slot, record, lane, n - 1);
    }
  }

  lemma CountsAfterRemove(slots: map<Slot, Record>, slot: Slot, lane: Lane, n: nat)
    requires slot in slots
    ensures var here := slot.lane == lane && slot.cursor < n;
      && CountUpTo(slots, lane, n) == CountUpTo(slots - {slot}, lane, n) + (if here then 1 else 0)
      && BytesUpTo(slots, lane, n) == BytesUpTo(slots - {slot}, lane, n) + (if here then slots[slot].size else 0)
  {
    CountsAfterAdd(slots - {slot}, slot, slots[slot], lane, n);
    assert (slots - {slot})[slot := slots[slot]] == slots;
  }

  lemma {:induction false} FullLaneCounts(slots: map<Slot, Record>, lane: Lane, n: nat)
    requires forall c :: 0 <= c < n ==> Slot(lane, c) in slots
    ensures CountUpTo(slots, lane, n) == n
  {
    if n > 0 {
      FullLaneCounts(slots, lane, n - 1);
    }
  }

  lemma {:induction false} CountWithin(slots: map<Slot, Record>, lane: Lane, n: nat)
    ensures CountUpTo(slots, lane, n) <= n
  {
    if n > 0 {
      CountWithin(slots, lane, n - 1);
    }
  }

  // ---------------------------------------------------------------- probing

  // How many steps around the ring lead from one cursor to another.
  function Distance(from: nat, to: nat, capacity: nat): nat
    requires from < capacity && to < capacity
  {
    if from <= to then to - from else to + capacity - from
  }

  lemma NextIs(cursor: nat, capacity: nat)
    requires cursor < capacity
    ensures Next(cursor, capacity) == if cursor + 1 == capacity then 0 else cursor + 1
  {
  }

  predicate Unusable(d: Disk, slot: Slot) { slot in d.temps || slot in d.slots }

  // The probe stops at the first usable slot in ring order, and gives up only after seeing none.
  lemma {:induction false} ProbeFinds(d: Disk, capacity: nat, lane: Lane, cursor: nat, left: nat)
    requires cursor < capacity && left <= capacity
    ensures var found := ProbeFrom(d, capacity, lane, cursor, left).cursor;
      && (found.Some? ==>
            && found.value < capacity && !Unusable(d, Slot(lane, found.value))
            && Distance(cursor, found.value, capacity) < left)
      && (forall c :: 0 <= c < capacity && Distance(cursor, c, capacity) < left
            && (found.Some? ==> Distance(cursor, c, capacity) < Distance(cursor, found.value, capacity))
            ==> Unusable(d, Slot(lane, c)))
    decreases left
  {
    if left > 0 && Unusable(d, Slot(lane, cursor)) {
      var next := Next(cursor, capacity);
      NextIs(cursor, capacity);
      ProbeFinds(d, capacity, lane, next, left - 1);
      forall c | 0 <= c < capacity && c != cursor
        ensures Distance(cursor, c, capacity) == Distance(next, c, capacity) + 1
      {
      }
      if left == capacity {
        assert Distance(next, cursor, capacity) == capacity - 1;
      }
    }
  }

  // What a probe's own steps leave behind: at most its last temporary file.
  lemma {:induction false} ProbeRun(d: Disk, e: Disk, capacity: nat, lane: Lane, cursor: nat, left: nat)
    requires capacity > 0
    requires e.temps == d.temps
    ensures var p := ProbeFrom(d, capacity, lane, cursor, left);
      Run(e, p.ops) == e.(temps := if p.cursor.Some? then e.temps + {Slot(lane, p.cursor.value)} else e.temps)
    decreases left
  {
    var slot := Slot(lane, cursor);
    if left > 0 {
      if slot in d.temps {
        ProbeRun(d, e, capacity, lane, Next(cursor, capacity), left - 1);
      } else if slot in d.slots {
        var rest := ProbeFrom(d, capacity, lane, Next(cursor, capacity), left - 1);
        var pair := [CreateTemp(slot), RemoveTemp(slot)];
        RunConcat(e, pair, rest.ops);
        RunTwo(e, pair[0], pair[1]);
        assert e.temps + {slot} - {slot} == e.temps;
        ProbeRun(d, e, capacity, lane, Next(cursor, capacity), left - 1);
      }
    }
  }

  lemma RunThree(d: Disk, a: Op, b: Op, c: Op)
    ensures Run(d, [a, b, c]) == Apply(Apply(Apply(d, a), b), c)
  {
    assert [a, b, c][..2] == [a, b];
    RunTwo(d, a, b);
  }

  lemma RunTwo(d: Disk, a: Op, b: Op)
    ensures Run(d, [a, b]) == Apply(Apply(d, a), b)
  {
    assert [a, b][..1] == [a] && [a][..0] == [];
    assert Run(d, []) == d;
    assert Run(d, [a]) == Apply(d, a);
  }

  lemma FindIdMisses(slots: map<Slot, Record>, capacity: nat, id: nat)
    requires Addressed(slots, capacity) && FindId(slots, capacity, id).None?
    ensures forall t :: t in slots ==> slots[t].id != id
  {
    forall t | t in slots
      ensures slots[t].id != id
    {
      assert t == Slot(t.lane, t.cursor);
      assert FindFrom(slots, capacity, t.lane, 0, id, None).None?;
    }
  }

  lemma AddRemove(temps: set<Slot>, slot: Slot)
    requires slot !in temps
    ensures temps + {slot} - {slot} == temps
  {
  }

  lemma StoringSteps(e: Disk, slot: Slot, record: Record, s: Summary)
    ensures Run(e, [Op.Link(slot, record), RemoveTemp(slot), WriteSummary(s)])
      == Disk(e.slots[slot := record], e.temps - {slot}, s)
  {
    RunThree(e, Op.Link(slot, record), RemoveTemp(slot), WriteSummary(s));
  }

  function StoringOps(slot: Slot, record: Record, s: Summary): seq<Op> {
    [Op.Link(slot, record), RemoveTemp(slot), WriteSummary(s)]
  }

  // A probe that found a slot, and the steps that fill it.
  lemma StoreSteps(d: Disk, e: Disk, probe: seq<Op>, slot: Slot, record: Record, s: Summary, ops: seq<Op>)
    requires Run(d, probe) == e && e == d.(temps := d.temps + {slot}) && slot !in d.temps
    requires ops == StoringOps(slot, record, s)
    ensures Run(d, probe + ops) == Disk(d.slots[slot := record], d.temps, s)
  {
    RunConcat(d, probe, ops);
    StoringSteps(e, slot, record, s);
    AddRemove(d.temps, slot);
  }

  // The disk after a whole enqueue: one new record, under the next sequence number.
  lemma EnqueueEffect(d: Disk, lim: Limits, lane: Lane, r: NewRecord, dedupe: Dedupe)
    requires lim.capacity > 0 && d.temps == {}
    ensures var p := Enqueue(d, lim, lane, r, dedupe);
      match p.result
      case Stored(slot, record) =>
        && slot.lane == lane && record == Prepare(r, d.summary.nextSequence)
        && Run(d, p.ops) == Disk(d.slots[slot := record], {},
                                 AfterStore(d.summary, lim.capacity, lane, slot.cursor, r.size))
      case NoFreeSlot => Run(d, p.ops) == d.(summary := d.summary.(capacityEvents := d.summary.capacityEvents + 1))
      case Full => Run(d, p.ops) == d.(summary := d.summary.(capacityEvents := d.summary.capacityEvents + 1))
      case _ => Run(d, p.ops) == d
  {
    var p := Enqueue(d, lim, lane, r, dedupe);
    if p.result.Stored? || p.result.NoFreeSlot? {
      StoreEffect(d, lim, lane, r);
    } else if p.result.Full? {
      assert [WriteSummary(CountEvent(d.summary))][..0] == [];
    }
  }

  lemma StoreEffect(d: Disk, lim: Limits, lane: Lane, r: NewRecord)
    requires lim.capacity > 0 && d.temps == {}
    ensures var p := Store(d, lim, lane, r);
      Run(d, p.ops) == if p.result.Stored?
        then Disk(d.slots[p.result.slot := p.result.record], {}, AfterStore(d.summary, lim.capacity, lane, p.result.slot.cursor, r.size))
        else d.(summary := CountEvent(d.summary))
  {
    var probe := ProbeFrom(d, lim.capacity, lane, d.summary.Of(lane).write, lim.capacity);
    ProbeRun(d, d, lim.capacity, lane, d.summary.Of(lane).write, lim.capacity);
    if probe.cursor.Some? {
      var slot, record := Slot(lane, probe.cursor.value), Prepare(r, d.summary.nextSequence);
      var s := AfterStore(d.summary, lim.capacity, lane, slot.cursor, r.size);
      StoreSteps(d, d.(temps := d.temps + {slot}), probe.ops, slot, record, s, StoringOps(slot, record, s));
    } else {
      RunConcat(d, probe.ops, [WriteSummary(CountEvent(d.summary))]);
      assert [WriteSummary(CountEvent(d.summary))][..0] == [];
    }
  }

  // ---------------------------------------------------------------- the accounting is kept

  // While the limits leave room a slot is free: the "no free slot" failure cannot happen.
  lemma FreeSlotExists(d: Disk, lim: Limits, lane: Lane, r: NewRecord, dedupe: Dedupe)
    requires Accurate(d, lim)
    ensures !Enqueue(d, lim, lane, r, dedupe).result.NoFreeSlot?
    ensures var p := Enqueue(d, lim, lane, r, dedupe);
      p.result.Stored? ==> p.result.slot.cursor < lim.capacity && p.result.slot !in d.slots
  {
    var l := d.summary.Of(lane);
    ProbeFinds(d, lim.capacity, lane, l.write, lim.capacity);
    var p := Enqueue(d, lim, lane, r, dedupe);
    if p.result.NoFreeSlot? {
      forall c | 0 <= c < lim.capacity
        ensures Slot(lane, c) in d.slots
      {
        assert Distance(l.write, c, lim.capacity) < lim.capacity;
      }
      FullLaneCounts(d.slots, lane, lim.capacity);
      assert false;
    }
  }

  // The record is in the queue already, as far as the enqueue is asked to look.
  ghost predicate IsThere(slots: map<Slot, Record>, s: Slot, lane: Lane, r: NewRecord, dedupe: Dedupe) {
    && s in slots && slots[s].id == r.id
    && match dedupe
       case ById => true
       case ByGeneration => s.lane == lane && slots[s].generation == r.generation
       case Never => false
  }

  lemma ExistingIff(d: Disk, lim: Limits, lane: Lane, r: NewRecord, dedupe: Dedupe)
    requires Addressed(d.slots, lim.capacity)
    ensures match Existing(d, lim, lane, r, dedupe)
      case Some(found) => IsThere(d.slots, found, lane, r, dedupe)
      case None => forall s :: s in d.slots ==> !IsThere(d.slots, s, lane, r, dedupe)
  {
    if Existing(d, lim, lane, r, dedupe).None? {
      if dedupe.ById? {
        FindIdMisses(d.slots, lim.capacity, r.id);
      }
      forall s | s in d.slots
        ensures !IsThere(d.slots, s, lane, r, dedupe)
      {
        assert s == Slot(s.lane, s.cursor);
      }
    }
  }

  // Exactly when an enqueue has which result: a record found is not stored again, whatever its
  // size; one too large is refused before the queue is asked for room.
  lemma EnqueueResultIs(d: Disk, lim: Limits, lane: Lane, r: NewRecord, dedupe: Dedupe)
    requires Accurate(d, lim)
    ensures var result := Enqueue(d, lim, lane, r, dedupe).result;
      var there := exists s :: IsThere(d.slots, s, lane, r, dedupe);
      var room := d.summary.ready.count + d.summary.deferred.count + d.summary.held.count < lim.maxRecords
        && d.summary.ready.bytes + d.summary.deferred.bytes + d.summary.held.bytes + r.size <= lim.maxRecordBytes;
      && (result.Found? <==> there) && (result.Found? ==> IsThere(d.slots, result.slot, lane, r, dedupe))
      && (result.TooLarge? <==> !there && r.size > lim.recordMaxBytes)
      && (result.Full? <==> !there && r.size <= lim.recordMaxBytes && !room)
      && (result.Stored? <==> !there && r.size <= lim.recordMaxBytes && room)
  {
    ExistingIff(d, lim, lane, r, dedupe);
    FreeSlotExists(d, lim, lane, r, dedupe);
  }

  lemma LaneAfterStore(d: Disk, lim: Limits, slot: Slot, record: Record, lane: Lane)
    requires lim.capacity > 0 && slot !in d.slots && slot.cursor < lim.capacity && LaneAccurate(d, lim, lane)
    ensures LaneAccurate(Disk(d.slots[slot := record], {}, AfterStore(d.summary, lim.capacity, slot.lane, slot.cursor, record.size)),
                         lim, lane)
  {
    NextIs(slot.cursor, lim.capacity);
    CountsAfterAdd(d.slots, slot, record, lane, lim.capacity);
  }

  lemma EnqueueKeeps(d: Disk, lim: Limits, lane: Lane, r: NewRecord, dedupe: Dedupe)
    requires Accurate(d, lim)
    ensures Accurate(Run(d, Enqueue(d, lim, lane, r, dedupe).ops), lim)
  {
    var p := Enqueue(d, lim, lane, r, dedupe);
    EnqueueEffect(d, lim, lane, r, dedupe);
    FreeSlotExists(d, lim, lane, r, dedupe);
    if p.result.Stored? {
      StoreKeeps(d, lim, p.result.slot, p.result.record);
    }
  }

  lemma StoreKeeps(d: Disk, lim: Limits, slot: Slot, record: Record)
    requires Accurate(d, lim) && slot !in d.slots && slot.cursor < lim.capacity
    requires record.sequence == d.summary.nextSequence
    requires d.summary.TotalCount() < lim.maxRecords && d.summary.TotalBytes() + record.size <= lim.maxRecordBytes
    ensures Accurate(Disk(d.slots[slot := record], {}, AfterStore(d.summary, lim.capacity, slot.lane, slot.cursor, record.size)), lim)
  {
    LaneAfterStore(d, lim, slot, record, Ready);
    LaneAfterStore(d, lim, slot, record, Deferred);
    LaneAfterStore(d, lim, slot, record, Held);
  }

  lemma CompleteEffect(d: Disk, lim: Limits, slot: Slot)
    requires lim.capacity > 0 && slot in d.slots
    ensures Run(d, CompleteOps(d, lim, slot))
      == d.(slots := d.slots - {slot}, summary := AfterRemove(d.summary, lim.capacity, slot, d.slots[slot].size))
  {
    RunTwo(d, CompleteOps(d, lim, slot)[0], CompleteOps(d, lim, slot)[1]);
  }

  lemma CompleteKeeps(d: Disk, lim: Limits, slot: Slot)
    requires Accurate(d, lim) && slot in d.slots
    ensures Accurate(Run(d, CompleteOps(d, lim, slot)), lim)
  {
    CompleteEffect(d, lim, slot);
    NextIs(slot.cursor, lim.capacity);
    CountsAfterRemove(d.slots, slot, Ready, lim.capacity);
    CountsAfterRemove(d.slots, slot, Deferred, lim.capacity);
    CountsAfterRemove(d.slots, slot, Held, lim.capacity);
  }

  // ---------------------------------------------------------------- moving

  ghost predicate IdsDistinct(slots: map<Slot, Record>) {
    forall s, t :: s in slots && t in slots && s != t ==> slots[s].id != slots[t].id
  }

  // A move of a record that alone has its identifier succeeds exactly when the queue has room
  // for one record more: a queue that is full cannot move anything, although the move would
  // give back the slot it takes.
  lemma MoveSucceedsIff(d: Disk, lim: Limits, slot: Slot, lane: Lane, size: nat, dueAt: Option<nat>, body: nat)
    requires Accurate(d, lim) && IdsDistinct(d.slots) && slot in d.slots
    ensures Move(d, lim, slot, lane, size, dueAt, body).result.Stored? <==>
      && size <= lim.recordMaxBytes
      && d.summary.TotalCount() < lim.maxRecords
      && d.summary.TotalBytes() + size <= lim.maxRecordBytes
    ensures !Move(d, lim, slot, lane, size, dueAt, body).result.Found?
    ensures d.summary.TotalCount() >= lim.maxRecords && size <= lim.recordMaxBytes ==>
      Move(d, lim, slot, lane, size, dueAt, body).result == Full
  {
    FreeSlotExists(d, lim, lane, Moved(d.slots[slot], size, dueAt, body), ByGeneration);
  }

  lemma MoveEffect(d: Disk, lim: Limits, slot: Slot, lane: Lane, size: nat, dueAt: Option<nat>, body: nat)
    requires Accurate(d, lim) && IdsDistinct(d.slots) && slot in d.slots
    ensures var p := Move(d, lim, slot, lane, size, dueAt, body);
      && Accurate(Run(d, p.ops), lim)
      && (if p.result.Stored? then
            && p.result.record == Prepare(Moved(d.slots[slot], size, dueAt, body), d.summary.nextSequence)
            && p.result.slot !in d.slots && p.result.slot.lane == lane
            && Run(d, p.ops).slots == d.slots[p.result.slot := p.result.record] - {slot}
            && IdsDistinct(Run(d, p.ops).slots)
          else Run(d, p.ops).slots == d.slots)
  {
    var r := Moved(d.slots[slot], size, dueAt, body);
    var enqueue := Enqueue(d, lim, lane, r, ByGeneration);
    var between := Run(d, enqueue.ops);
    MoveSucceedsIff(d, lim, slot, lane, size, dueAt, body);
    FreeSlotExists(d, lim, lane, r, ByGeneration);
    EnqueueEffect(d, lim, lane, r, ByGeneration);
    EnqueueKeeps(d, lim, lane, r, ByGeneration);
    if enqueue.result.Stored? {
      CompleteKeeps(between, lim, slot);
      CompleteEffect(between, lim, slot);
      RunConcat(d, enqueue.ops, CompleteOps(between, lim, slot));
    }
  }

  // Where the next generation is found in the destination, as after a move that was cut off before
  // its end, only the old record goes.
  lemma MoveOfFound(d: Disk, lim: Limits, slot: Slot, lane: Lane, size: nat, dueAt: Option<nat>, body: nat, s: Slot)
    requires Accurate(d, lim) && slot in d.slots && s in d.slots
    requires s.lane == lane && d.slots[s].id == d.slots[slot].id && d.slots[s].generation == d.slots[slot].generation + 1
    ensures var p := Move(d, lim, slot, lane, size, dueAt, body);
      && p.result.Found? && Run(d, p.ops).slots == d.slots - {slot} && s in Run(d, p.ops).slots
      && Accurate(Run(d, p.ops), lim)
  {
    var r := Moved(d.slots[slot], size, dueAt, body);
    assert IsThere(d.slots, s, lane, r, ByGeneration);
    EnqueueResultIs(d, lim, lane, r, ByGeneration);
    EnqueueEffect(d, lim, lane, r, ByGeneration);
    assert Enqueue(d, lim, lane, r, ByGeneration).ops == [];
    assert Move(d, lim, slot, lane, size, dueAt, body).ops == CompleteOps(d, lim, slot);
    CompleteEffect(d, lim, slot);
    CompleteKeeps(d, lim, slot);
  }

  lemma {:induction false} EmptyCounts(lane: Lane, n: nat)
    ensures CountUpTo(map[], lane, n) == 0 && BytesUpTo(map[], lane, n) == 0
  {
    if n > 0 {
      EmptyCounts(lane, n - 1);
    }
  }

  lemma EmptyIsAccurate(lim: Limits)
    requires Sensible(lim)
    ensures Accurate(EMPTY_DISK, lim)
  {
    EmptyCounts(Ready, lim.capacity);
    EmptyCounts(Deferred, lim.capacity);
    EmptyCounts(Held, lim.capacity);
  }

  // So many records of one size, enqueued one after another under identifiers of their own.
  function Filled(empty: Disk, lim: Limits, n: nat, size: nat): Disk
    requires lim.capacity > 0
  {
    if n == 0 then empty
    else
      var d := Filled(empty, lim, n - 1, size);
      Run(d, Enqueue(d, lim, Ready, Numbered(n, size), ById).ops)
  }

  function Numbered(n: nat, size: nat): NewRecord { NewRecord(n, 0, size, None, 0) }

  // Their bytes.
  function Together(n: nat, size: nat): nat { if n == 0 then 0 else Together(n - 1, size) + size }

  ghost predicate HoldsNumbered(d: Disk, lim: Limits, n: nat, bytes: nat) {
    && Accurate(d, lim) && IdsDistinct(d.slots) && d.summary.TotalCount() == n && d.summary.TotalBytes() == bytes
    && (forall s :: s in d.slots ==> d.slots[s].id <= n) && |d.slots| == n
  }

  lemma NoneNumbered(d: Disk, lim: Limits)
    requires Accurate(d, lim) && d.slots == map[]
    ensures HoldsNumbered(d, lim, 0, 0)
  {
    EmptyCounts(Ready, lim.capacity);
    EmptyCounts(Deferred, lim.capacity);
    EmptyCounts(Held, lim.capacity);
    assert |d.slots| == 0;
  }

  lemma NumberedNext(d: Disk, lim: Limits, n: nat, size: nat, bytes: nat)
    requires n > 0 && HoldsNumbered(d, lim, n - 1, bytes)
    requires n <= lim.maxRecords && size <= lim.recordMaxBytes && bytes + size <= lim.maxRecordBytes
    ensures HoldsNumbered(Run(d, Enqueue(d, lim, Ready, Numbered(n, size), ById).ops), lim, n, bytes + size)
  {
    FreeSlotExists(d, lim, Ready, Numbered(n, size), ById);
    EnqueueEffect(d, lim, Ready, Numbered(n, size), ById);
    EnqueueKeeps(d, lim, Ready, Numbered(n, size), ById);
  }

  lemma {:induction false} FilledIs(empty: Disk, lim: Limits, n: nat, size: nat)
    requires HoldsNumbered(empty, lim, 0, 0)
    requires n <= lim.maxRecords && size <= lim.recordMaxBytes && Together(n, size) <= lim.maxRecordBytes
    ensures HoldsNumbered(Filled(empty, lim, n, size), lim, n, Together(n, size))
  {
    if n > 0 {
      FilledIs(empty, lim, n - 1, size);
      NumberedNext(Filled(empty, lim, n - 1, size), lim, n, size, Together(n - 1, size));
    }
  }

  // From any empty queue, whatever the record limit, one is reached that holds as many records
  // as that, and from there no record can be moved, not even to one that takes no more room.
  lemma FullQueueCannotMove(empty: Disk, lim: Limits, size: nat, slot: Slot, lane: Lane, size': nat)
    requires Accurate(empty, lim) && empty.slots == map[]
    requires size <= lim.recordMaxBytes && Together(lim.maxRecords, size) <= lim.maxRecordBytes && size' <= lim.recordMaxBytes
    ensures var d := Filled(empty, lim, lim.maxRecords, size);
      && |d.slots| == lim.maxRecords
      && (slot in d.slots ==> Move(d, lim, slot, lane, size', None, 0).result == Full)
  {
    NoneNumbered(empty, lim);
    FilledIs(empty, lim, lim.maxRecords, size);
    var d := Filled(empty, lim, lim.maxRecords, size);
    if slot in d.slots {
      MoveSucceedsIff(d, lim, slot, lane, size', None, 0);
    }
  }
}
