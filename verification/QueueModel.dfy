/**
  The durable queue of the maintenance store: three lanes of ring slots on disk, and a
  separately stored summary of cursors, counts, bytes and the next sequence number.

  A slot is addressed by its cursor, segment * segment size + slot number; a segment directory
  that does not exist reads as empty slots.  Every operation is a program of atomic filesystem
  steps, so that a crash is a prefix of a program.
 */
module QueueModel {
  import opened Options

  datatype Lane = Ready | Deferred | Held

  // The size is the length of the encoded record.
  datatype Record = Record(id: nat, generation: nat, sequence: nat, size: nat, dueAt: Option<nat>, body: nat)

  datatype Slot = Slot(lane: Lane, cursor: nat)

  datatype LaneState = LaneState(head: nat, write: nat, count: nat, bytes: nat)

  datatype Summary = Summary(
    nextSequence: nat, capacityEvents: nat, ready: LaneState, deferred: LaneState, held: LaneState)
  {
    function Of(lane: Lane): LaneState {
      match lane case Ready => ready case Deferred => deferred case Held => held
    }

    function With(lane: Lane, s: LaneState): Summary {
      match lane
      case Ready => this.(ready := s)
      case Deferred => this.(deferred := s)
      case Held => this.(held := s)
    }

    function TotalCount(): nat { ready.count + deferred.count + held.count }

    function TotalBytes(): nat { ready.bytes + deferred.bytes + held.bytes }
  }

  datatype Limits = Limits(capacity: nat, maxRecords: nat, maxRecordBytes: nat, recordMaxBytes: nat)

  // The shipped limits allow as many records as one lane has slots.
  predicate Sensible(lim: Limits) { 0 < lim.capacity && lim.maxRecords <= lim.capacity }

  datatype Disk = Disk(slots: map<Slot, Record>, temps: set<Slot>, summary: Summary)

  const EMPTY_LANE := LaneState(0, 0, 0, 0)
  const EMPTY_DISK := Disk(map[], {}, Summary(0, 0, EMPTY_LANE, EMPTY_LANE, EMPTY_LANE))

  // ---------------------------------------------------------------- atomic steps

  datatype Op =
    | CreateTemp(slot: Slot)
    | Link(slot: Slot, record: Record)
    | RemoveTemp(slot: Slot)
    | RemoveRecord(slot: Slot)
    | WriteSummary(summary: Summary)

  function Apply(d: Disk, op: Op): Disk {
    match op
    case CreateTemp(slot) => d.(temps := d.temps + {slot})
    case Link(slot, record) => d.(slots := d.slots[slot := record])
    case RemoveTemp(slot) => d.(temps := d.temps - {slot})
    case RemoveRecord(slot) => d.(slots := d.slots - {slot})
    case WriteSummary(summary) => d.(summary := summary)
  }

  function Run(d: Disk, ops: seq<Op>): Disk {
    if |ops| == 0 then d else Apply(Run(d, ops[..|ops| - 1]), ops[|ops| - 1])
  }

  lemma {:induction false} RunConcat(d: Disk, a: seq<Op>, b: seq<Op>)
    ensures Run(d, a + b) == Run(Run(d, a), b)
  {
    if |b| == 0 {
      assert a + b == a;
    } else {
      var n := |b| - 1;
      assert (a + b)[..|a| + n] == a + b[..n];
      RunConcat(d, a, b[..n]);
    }
  }

  // ---------------------------------------------------------------- enqueue

  datatype NewRecord = NewRecord(id: nat, generation: nat, size: nat, dueAt: Option<nat>, body: nat)

  function Prepare(r: NewRecord, sequence: nat): Record {
    Record(r.id, r.generation, sequence, r.size, r.dueAt, r.body)
  }

  // Look for the record first: by identifier in any lane, or by identifier and generation in the
  // lane enqueued to, or not at all.
  datatype Dedupe = ById | ByGeneration | Never

  function FindFrom(slots: map<Slot, Record>, capacity: nat, lane: Lane, from: nat, id: nat, generation: Option<nat>): (r: Option<Slot>)
    ensures r.Some? ==> r.value in slots && r.value.lane == lane && slots[r.value].id == id
    ensures r.Some? && generation.Some? ==> slots[r.value].generation == generation.value
    ensures r.None? ==> forall c :: from <= c < capacity && Slot(lane, c) in slots ==>
      slots[Slot(lane, c)].id != id || (generation.Some? && slots[Slot(lane, c)].generation != generation.value)
    decreases capacity - from
  {
    if from >= capacity then None
    else
      var slot := Slot(lane, from);
      if slot in slots && slots[slot].id == id && (generation.None? || slots[slot].generation == generation.value)
      then Some(slot)
      else FindFrom(slots, capacity, lane, from + 1, id, generation)
  }

  function FindId(slots: map<Slot, Record>, capacity: nat, id: nat): Option<Slot> {
    var ready := FindFrom(slots, capacity, Ready, 0, id, None);
    if ready.Some? then ready
    else
      var deferred := FindFrom(slots, capacity, Deferred, 0, id, None);
      if deferred.Some? then deferred else FindFrom(slots, capacity, Held, 0, id, None)
  }

  function Existing(d: Disk, lim: Limits, lane: Lane, r: NewRecord, dedupe: Dedupe): (slot: Option<Slot>)
    ensures slot.Some? ==> slot.value in d.slots && d.slots[slot.value].id == r.id
  {
    match dedupe
    case ById => FindId(d.slots, lim.capacity, r.id)
    case ByGeneration => FindFrom(d.slots, lim.capacity, lane, 0, r.id, Some(r.generation))
    case Never => None
  }

  function Next(cursor: nat, capacity: nat): nat
    requires capacity > 0
  {
    (cursor + 1) % capacity
  }

  datatype Probe = Probe(ops: seq<Op>, cursor: Option<nat>)

  // Tries the slots in ring order.  A left-over temporary file makes a slot unusable; an occupied
  // one costs a temporary file that is written and taken away again.
  function ProbeFrom(d: Disk, capacity: nat, lane: Lane, cursor: nat, left: nat): Probe
    requires capacity > 0
    decreases left
  {
    var slot := Slot(lane, cursor);
    if left == 0 then Probe([], None)
    else if slot in d.temps then ProbeFrom(d, capacity, lane, Next(cursor, capacity), left - 1)
    else if slot in d.slots then
      var rest := ProbeFrom(d, capacity, lane, Next(cursor, capacity), left - 1);
      Probe([CreateTemp(slot), RemoveTemp(slot)] + rest.ops, rest.cursor)
    else Probe([CreateTemp(slot)], Some(cursor))
  }

  function AfterStore(s: Summary, capacity: nat, lane: Lane, cursor: nat, size: nat): Summary
    requires capacity > 0
  {
    var l := s.Of(lane);
    var head := if l.count + 1 == 1 then cursor else l.head;
    s.With(lane, LaneState(head, Next(cursor, capacity), l.count + 1, l.bytes + size))
     .(nextSequence := s.nextSequence + 1)
  }

  datatype Enqueued = Found(slot: Slot) | TooLarge | Full | NoFreeSlot | Stored(slot: Slot, record: Record)

  datatype Program = Program(ops: seq<Op>, result: Enqueued)

  function CountEvent(s: Summary): Summary { s.(capacityEvents := s.capacityEvents + 1) }

  // Storing a record there is room for.
  function Store(d: Disk, lim: Limits, lane: Lane, r: NewRecord): Program
    requires lim.capacity > 0
  {
    var s := d.summary;
    var probe := ProbeFrom(d, lim.capacity, lane, s.Of(lane).write, lim.capacity);
    if probe.cursor.None? then Program(probe.ops + [WriteSummary(CountEvent(s))], NoFreeSlot)
    else
      var slot := Slot(lane, probe.cursor.value);
      var record := Prepare(r, s.nextSequence);
      Program(probe.ops + [Link(slot, record), RemoveTemp(slot),
                           WriteSummary(AfterStore(s, lim.capacity, lane, slot.cursor, r.size))],
              Stored(slot, record))
  }

  function Enqueue(d: Disk, lim: Limits, lane: Lane, r: NewRecord, dedupe: Dedupe): Program
    requires lim.capacity > 0
  {
    var s := d.summary;
    var existing := Existing(d, lim, lane, r, dedupe);
    if existing.Some? then Program([], Found(existing.value))
    else if r.size > lim.recordMaxBytes then Program([], TooLarge)
    else if s.TotalCount() >= lim.maxRecords || s.TotalBytes() + r.size > lim.maxRecordBytes then
      Program([WriteSummary(CountEvent(s))], Full)
    else Store(d, lim, lane, r)
  }

  // ---------------------------------------------------------------- complete and move

  function Less(a: nat, b: nat): nat { if a < b then 0 else a - b }

  function AfterRemove(s: Summary, capacity: nat, slot: Slot, size: nat): Summary
    requires capacity > 0
  {
    var l := s.Of(slot.lane);
    s.With(slot.lane, LaneState(Next(slot.cursor, capacity), l.write, Less(l.count, 1), Less(l.bytes, size)))
  }

  // The steps of completing a record that is still in its slot.
  function CompleteOps(d: Disk, lim: Limits, slot: Slot): seq<Op>
    requires lim.capacity > 0 && slot in d.slots
  {
    [RemoveRecord(slot), WriteSummary(AfterRemove(d.summary, lim.capacity, slot, d.slots[slot].size))]
  }

  function Moved(record: Record, size: nat, dueAt: Option<nat>, body: nat): NewRecord {
    NewRecord(record.id, record.generation + 1, size, dueAt, body)
  }

  // Moving a record: enqueue it, one generation on, in the destination; then complete the old one.
  function Move(d: Disk, lim: Limits, slot: Slot, lane: Lane, size: nat, dueAt: Option<nat>, body: nat): Program
    requires lim.capacity > 0 && slot in d.slots
  {
    var enqueue := Enqueue(d, lim, lane, Moved(d.slots[slot], size, dueAt, body), ByGeneration);
    if enqueue.result.Stored? || enqueue.result.Found? then
      var between := Run(d, enqueue.ops);
      Program(enqueue.ops + (if slot in between.slots then CompleteOps(between, lim, slot) else []), enqueue.result)
    else enqueue
  }

  // ---------------------------------------------------------------- counting a lane

  function CountUpTo(slots: map<Slot, Record>, lane: Lane, n: nat): nat {
    if n == 0 then 0 else CountUpTo(slots, lane, n - 1) + (if Slot(lane, n - 1) in slots then 1 else 0)
  }

  function BytesUpTo(slots: map<Slot, Record>, lane: Lane, n: nat): nat {
    if n == 0 then 0
    else BytesUpTo(slots, lane, n - 1) + (if Slot(lane, n - 1) in slots then slots[Slot(lane, n - 1)].size else 0)
  }

  // The occupied cursor below n whose record has the smallest, or the largest, sequence.
  function FirstCursor(slots: map<Slot, Record>, lane: Lane, n: nat): (r: Option<nat>)
    ensures r.Some? ==> r.value < n && Slot(lane, r.value) in slots
    ensures r.None? <==> CountUpTo(slots, lane, n) == 0
  {
    if n == 0 then None
    else
      var first := FirstCursor(slots, lane, n - 1);
      if Slot(lane, n - 1) in slots
         && (first.None? || slots[Slot(lane, n - 1)].sequence < slots[Slot(lane, first.value)].sequence)
      then Some(n - 1) else first
  }

  function LastCursor(slots: map<Slot, Record>, lane: Lane, n: nat): (r: Option<nat>)
    ensures r.Some? ==> r.value < n && Slot(lane, r.value) in slots
    ensures r.None? <==> CountUpTo(slots, lane, n) == 0
  {
    if n == 0 then None
    else
      var last := LastCursor(slots, lane, n - 1);
      if Slot(lane, n - 1) in slots
         && (last.None? || slots[Slot(lane, n - 1)].sequence >= slots[Slot(lane, last.value)].sequence)
      then Some(n - 1) else last
  }
}
