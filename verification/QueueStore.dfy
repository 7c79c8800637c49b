/**
  The queue as the program runs it: loops over slots that change the directory one filesystem
  step at a time.  A ghost trace records the steps, and every method is proved to take exactly
  the steps of its specification, which is what the results about cut-off calls speak of.
 */
module QueueStores {
  import opened Options
  import opened QueueModel
  import opened QueueAccounting
  import opened QueueRecovery
  import opened QueueOrder
  import QueueCrashes

  // ---------------------------------------------------------------- the order of a scan

  function ScanLane(lane: Lane, n: nat): (scan: seq<Slot>)
    ensures forall s :: s in scan <==> s.lane == lane && s.cursor < n
  {
    if n == 0 then [] else ScanLane(lane, n - 1) + [Slot(lane, n - 1)]
  }

  function Scan(capacity: nat): (scan: seq<Slot>)
    ensures forall s :: s in scan <==> s.cursor < capacity
  {
    ScanLane(Ready, capacity) + ScanLane(Deferred, capacity) + ScanLane(Held, capacity)
  }

  function Observed(slots: map<Slot, Record>, scan: seq<Slot>): (observed: seq<Slot>)
    ensures forall s :: s in observed <==> s in scan && s in slots
  {
    if |scan| == 0 then []
    else
      var rest := Observed(slots, scan[..|scan| - 1]);
      var slot := scan[|scan| - 1];
      assert scan == scan[..|scan| - 1] + [slot];
      if slot in slots then rest + [slot] else rest
  }

  lemma {:induction false} ObservedConcat(slots: map<Slot, Record>, a: seq<Slot>, b: seq<Slot>)
    ensures Observed(slots, a + b) == Observed(slots, a) + Observed(slots, b)
  {
    if |b| == 0 {
      assert a + b == a;
    } else {
      assert (a + b)[..|a + b| - 1] == a + b[..|b| - 1];
      ObservedConcat(slots, a, b[..|b| - 1]);
    }
  }

  lemma {:induction false} TempOpsConcat(temps: set<Slot>, a: seq<Slot>, b: seq<Slot>)
    ensures TempOps(temps, a + b) == TempOps(temps, a) + TempOps(temps, b)
  {
    if |b| == 0 {
      assert a + b == a;
    } else {
      assert (a + b)[..|a + b| - 1] == a + b[..|b| - 1];
      TempOpsConcat(temps, a, b[..|b| - 1]);
    }
  }

  lemma RunOne(d: Disk, done: seq<Op>, op: Op)
    ensures Run(d, done + [op]) == Apply(Run(d, done), op)
  {
    assert (done + [op])[..|done|] == done;
  }

  // The steps a failed try costs.
  function Tried(d: Disk, slot: Slot): seq<Op> {
    if slot in d.temps then [] else [CreateTemp(slot), RemoveTemp(slot)]
  }

  lemma ProbeStep(d: Disk, capacity: nat, lane: Lane, cursor: nat, left: nat)
    requires capacity > 0 && left > 0
    ensures var p := ProbeFrom(d, capacity, lane, cursor, left);
      var rest := ProbeFrom(d, capacity, lane, Next(cursor, capacity), left - 1);
      && (Unusable(d, Slot(lane, cursor)) ==> p.cursor == rest.cursor && p.ops == Tried(d, Slot(lane, cursor)) + rest.ops)
      && (!Unusable(d, Slot(lane, cursor)) ==> p.cursor == Some(cursor) && p.ops == [CreateTemp(Slot(lane, cursor))])
  {
  }

  lemma AddRemoveIf(temps: set<Slot>, slot: Slot)
    ensures slot !in temps ==> temps + {slot} - {slot} == temps
  {
  }

  // What a scan of a lane has seen, and the temporary files it has removed, before a cursor.
  function LaneObserved(slots: map<Slot, Record>, lane: Lane, n: nat): seq<Slot> {
    if n == 0 then []
    else if Slot(lane, n - 1) in slots then LaneObserved(slots, lane, n - 1) + [Slot(lane, n - 1)]
    else LaneObserved(slots, lane, n - 1)
  }

  function LaneTempOps(temps: set<Slot>, lane: Lane, n: nat): seq<Op> {
    if n == 0 then []
    else if Slot(lane, n - 1) in temps then LaneTempOps(temps, lane, n - 1) + [RemoveTemp(Slot(lane, n - 1))]
    else LaneTempOps(temps, lane, n - 1)
  }

  lemma ScanLaneStep(lane: Lane, n: nat)
    requires n > 0
    ensures |ScanLane(lane, n)| > 0 && ScanLane(lane, n)[|ScanLane(lane, n)| - 1] == Slot(lane, n - 1)
    ensures ScanLane(lane, n)[..|ScanLane(lane, n)| - 1] == ScanLane(lane, n - 1)
  {
  }

  lemma ObservedStep(slots: map<Slot, Record>, scan: seq<Slot>, slot: Slot)
    ensures Observed(slots, scan + [slot]) == if slot in slots then Observed(slots, scan) + [slot] else Observed(slots, scan)
  {
    assert (scan + [slot])[..|scan|] == scan;
  }

  lemma {:induction false} LaneScan(slots: map<Slot, Record>, lane: Lane, n: nat)
    ensures Observed(slots, ScanLane(lane, n)) == LaneObserved(slots, lane, n)
  {
    if n > 0 {
      LaneScan(slots, lane, n - 1);
      ObservedStep(slots, ScanLane(lane, n - 1), Slot(lane, n - 1));
    }
  }

  lemma {:induction false} LaneTemps(temps: set<Slot>, lane: Lane, n: nat)
    ensures TempOps(temps, ScanLane(lane, n)) == LaneTempOps(temps, lane, n)
  {
    if n > 0 {
      LaneTemps(temps, lane, n - 1);
      ScanLaneStep(lane, n);
    }
  }

  lemma {:induction false} LaneObservedGrows(slots: map<Slot, Record>, lane: Lane, m: nat, n: nat)
    requires m <= n
    ensures |LaneObserved(slots, lane, m)| <= |LaneObserved(slots, lane, n)|
    decreases n
  {
    if m < n {
      LaneObservedGrows(slots, lane, m, n - 1);
    }
  }

  // The losers taken away before a position of the listing is reached.
  function LosersTo(kept: map<Slot, Record>, observed: seq<Slot>, i: nat): seq<Op>
    requires i <= |observed|
  {
    if i == 0 then []
    else if observed[i - 1] in kept then LosersTo(kept, observed, i - 1)
    else LosersTo(kept, observed, i - 1) + [RemoveRecord(observed[i - 1])]
  }

  lemma {:induction false} LosersToIs(kept: map<Slot, Record>, observed: seq<Slot>, i: nat)
    requires i <= |observed|
    ensures LosersTo(kept, observed, i) == LoserOps(kept, observed[..i])
  {
    if i > 0 {
      LosersToIs(kept, observed, i - 1);
      assert observed[..i][..i - 1] == observed[..i - 1];
    }
  }

  lemma KeptIsWinner(slots: map<Slot, Record>, observed: seq<Slot>, slot: Slot)
    requires (forall s :: s in observed ==> s in slots) && slot in observed
    ensures slots[slot].id in Winners(slots, observed)
    ensures slot in Kept(slots, observed) <==> Winners(slots, observed)[slots[slot].id] == slot
  {
    WinnersAreBest(slots, observed);
  }

  lemma EmptyLineMeansEmptyLane(d: Disk, lim: Limits, lane: Lane)
    requires lim.capacity > 0 && Addressed(d.slots, lim.capacity) && d.summary.Of(lane).head < lim.capacity
    requires |Line(d, lim.capacity, lane)| == 0
    ensures forall s :: s in d.slots ==> s.lane != lane
  {
    WalkIsOrdered(d.slots, lim.capacity, lane, d.summary.Of(lane).head, lim.capacity);
  }

  lemma {:induction false} NoneToCount(slots: map<Slot, Record>, lane: Lane, n: nat)
    requires forall s :: s in slots ==> s.lane != lane
    ensures CountUpTo(slots, lane, n) == 0
  {
    if n > 0 {
      NoneToCount(slots, lane, n - 1);
    }
  }

  lemma EnqueueLeavesRecords(d: Disk, lim: Limits, lane: Lane, r: NewRecord, slot: Slot)
    requires lim.capacity > 0 && slot in d.slots && d.summary.Of(lane).write < lim.capacity
    ensures var after := Run(d, QueueModel.Enqueue(d, lim, lane, r, ByGeneration).ops);
      slot in after.slots && after.slots[slot] == d.slots[slot]
  {
    var p := QueueModel.Enqueue(d, lim, lane, r, ByGeneration);
    ProbeFinds(d, lim.capacity, lane, d.summary.Of(lane).write, lim.capacity);
    EnqueueSlots(d, lim, lane, r, ByGeneration);
  }

  // The slots after a whole enqueue, whatever temporary files are lying about.
  lemma EnqueueSlots(d: Disk, lim: Limits, lane: Lane, r: NewRecord, dedupe: Dedupe)
    requires lim.capacity > 0
    ensures var p := QueueModel.Enqueue(d, lim, lane, r, dedupe);
      Run(d, p.ops).slots == if p.result.Stored? then d.slots[p.result.slot := p.result.record] else d.slots
  {
    var p := QueueModel.Enqueue(d, lim, lane, r, dedupe);
    var probe := ProbeFrom(d, lim.capacity, lane, d.summary.Of(lane).write, lim.capacity);
    QueueCrashes.ProbeIsQuiet(d, lim.capacity, lane, d.summary.Of(lane).write, lim.capacity);
    if p.result.Stored? {
      var link := Op.Link(p.result.slot, p.result.record);
      var after := p.ops[|probe.ops| + 1..];
      assert p.ops == probe.ops + [link] + after && p.ops[..|p.ops|] == p.ops;
      QueueCrashes.QuietRun(d, probe.ops);
      QueueCrashes.OneLoudStep(d, probe.ops, link, after, |p.ops|);
    } else {
      QueueCrashes.QuietRun(d, p.ops);
    }
  }

  function AllObserved(slots: map<Slot, Record>, capacity: nat): seq<Slot> {
    LaneObserved(slots, Ready, capacity) + LaneObserved(slots, Deferred, capacity) + LaneObserved(slots, Held, capacity)
  }

  function AllTempOps(temps: set<Slot>, capacity: nat): seq<Op> {
    LaneTempOps(temps, Ready, capacity) + LaneTempOps(temps, Deferred, capacity) + LaneTempOps(temps, Held, capacity)
  }

  // The scan is made of its three lanes.
  lemma ScanParts(d: Disk, capacity: nat)
    ensures Observed(d.slots, Scan(capacity)) == AllObserved(d.slots, capacity)
    ensures TempOps(d.temps, Scan(capacity)) == AllTempOps(d.temps, capacity)
  {
    var a, b, c := ScanLane(Ready, capacity), ScanLane(Deferred, capacity), ScanLane(Held, capacity);
    ObservedConcat(d.slots, a + b, c);
    ObservedConcat(d.slots, a, b);
    TempOpsConcat(d.temps, a + b, c);
    TempOpsConcat(d.temps, a, b);
    LaneScan(d.slots, Ready, capacity);
    LaneScan(d.slots, Deferred, capacity);
    LaneScan(d.slots, Held, capacity);
    LaneTemps(d.temps, Ready, capacity);
    LaneTemps(d.temps, Deferred, capacity);
    LaneTemps(d.temps, Held, capacity);
  }

  lemma Assoc(a: seq<Op>, b: seq<Op>, c: seq<Op>)
    ensures (a + b) + c == a + (b + c)
  {
  }

  lemma RunInThree(d: Disk, a: seq<Op>, b: seq<Op>, c: seq<Op>)
    ensures Run(Run(Run(d, a), b), c) == Run(d, a + b + c)
  {
    RunConcat(d, a + b, c);
    RunConcat(d, a, b);
  }

  lemma RebuiltWithin(slots: map<Slot, Record>, capacity: nat, capacityEvents: nat)
    requires capacity > 0
    ensures var s := Rebuilt(slots, capacity, capacityEvents);
      && s.ready.write < capacity && s.deferred.write < capacity && s.held.write < capacity
      && s.ready.head < capacity && s.deferred.head < capacity && s.held.head < capacity
  {
  }

  datatype RebuildError = TooManyRecords | TooManyBytes

  datatype Outcome = Completed | Gone(error: Option<RebuildError>) | OwnershipChanged

  class QueueStore {
    const lim: Limits
    var slots: map<Slot, Record>
    var temps: set<Slot>
    var summary: Summary
    ghost var trace: seq<Op>

    // No directory entry lies outside the segments.
    ghost predicate Valid()
      reads this
    {
      && lim.capacity > 0 && Addressed(slots, lim.capacity) && (forall s :: s in temps ==> s.cursor < lim.capacity)
      && summary.ready.write < lim.capacity && summary.deferred.write < lim.capacity && summary.held.write < lim.capacity
      && summary.ready.head < lim.capacity && summary.deferred.head < lim.capacity && summary.held.head < lim.capacity
    }

    ghost function View(): Disk
      reads this
    {
      Disk(slots, temps, summary)
    }

    constructor (lim: Limits)
      requires lim.capacity > 0
      ensures Valid() && View() == EMPTY_DISK && this.lim == lim && trace == []
    {
      this.lim := lim;
      slots, temps, summary := map[], {}, EMPTY_DISK.summary;
      trace := [];
    }

    // ------------------------------------------------------------ single steps

    // Opening a temporary file exclusively fails when the name is taken.
    method CreateTemporary(slot: Slot) returns (created: bool)
      modifies this
      ensures created == (slot !in old(temps))
      ensures created ==> View() == Apply(old(View()), CreateTemp(slot)) && trace == old(trace) + [CreateTemp(slot)]
      ensures !created ==> View() == old(View()) && trace == old(trace)
    {
      created := slot !in temps;
      if created {
        temps := temps + {slot};
        trace := trace + [CreateTemp(slot)];
      }
    }

    // Linking fails when the slot is taken.
    method LinkRecord(slot: Slot, record: Record) returns (linked: bool)
      modifies this
      ensures linked == (slot !in old(slots))
      ensures linked ==> View() == Apply(old(View()), Op.Link(slot, record)) && trace == old(trace) + [Op.Link(slot, record)]
      ensures !linked ==> View() == old(View()) && trace == old(trace)
    {
      linked := slot !in slots;
      if linked {
        slots := slots[slot := record];
        trace := trace + [Op.Link(slot, record)];
      }
    }

    method RemoveTemporary(slot: Slot)
      modifies this
      ensures View() == Apply(old(View()), RemoveTemp(slot)) && trace == old(trace) + [RemoveTemp(slot)]
    {
      temps := temps - {slot};
      trace := trace + [RemoveTemp(slot)];
    }

    method Remove(slot: Slot)
      modifies this
      ensures View() == Apply(old(View()), RemoveRecord(slot)) && trace == old(trace) + [RemoveRecord(slot)]
    {
      slots := slots - {slot};
      trace := trace + [RemoveRecord(slot)];
    }

    method Write(s: Summary)
      modifies this
      ensures View() == Apply(old(View()), WriteSummary(s)) && trace == old(trace) + [WriteSummary(s)]
    {
      summary := s;
      trace := trace + [WriteSummary(s)];
    }

    // ------------------------------------------------------------ searching

    // Whether a record is stored, and where: the searches by identifier.
    method FindInLane(lane: Lane, id: nat, generation: Option<nat>) returns (found: Option<Slot>)
      requires Valid()
      ensures found == FindFrom(slots, lim.capacity, lane, 0, id, generation)
    {
      var cursor := 0;
      while cursor < lim.capacity
        invariant cursor <= lim.capacity
        invariant FindFrom(slots, lim.capacity, lane, 0, id, generation)
               == FindFrom(slots, lim.capacity, lane, cursor, id, generation)
      {
        var slot := Slot(lane, cursor);
        if slot in slots && slots[slot].id == id && (generation.None? || slots[slot].generation == generation.value) {
          return Some(slot);
        }
        cursor := cursor + 1;
      }
      return None;
    }

    method FindExisting(lane: Lane, r: NewRecord, dedupe: Dedupe) returns (found: Option<Slot>)
      requires Valid()
      ensures found == Existing(View(), lim, lane, r, dedupe)
    {
      match dedupe {
        case ById =>
          found := FindInLane(Ready, r.id, None);
          if found.None? {
            found := FindInLane(Deferred, r.id, None);
            if found.None? {
              found := FindInLane(Held, r.id, None);
            }
          }
        case ByGeneration =>
          found := FindInLane(lane, r.id, Some(r.generation));
        case Never =>
          found := None;
      }
    }

    method Search(lane: Lane) returns (item: Option<Slot>)
      requires Valid()
      ensures var line := Line(View(), lim.capacity, lane);
        item == if |line| == 0 then None else Some(line[0])
    {
      var cursor: nat := summary.Of(lane).head;
      var left: nat := lim.capacity;
      FindItemIsFirst(slots, lim.capacity, lane, cursor, left);
      while left > 0
        invariant FindItem(slots, lim.capacity, lane, summary.Of(lane).head, lim.capacity)
               == FindItem(slots, lim.capacity, lane, cursor, left)
      {
        if Slot(lane, cursor) in slots {
          return Some(Slot(lane, cursor));
        }
        cursor := (cursor + 1) % lim.capacity;
        left := left - 1;
      }
      return None;
    }

    // ------------------------------------------------------------ enqueue

    // One slot: its temporary file, the link, and the temporary file away again.
    method TryLink(slot: Slot, record: Record) returns (linked: bool)
      requires Valid() && slot.cursor < lim.capacity
      modifies this
      ensures Valid()
      ensures linked <==> !Unusable(old(View()), slot)
      ensures View() == if linked then old(View()).(slots := old(slots)[slot := record]) else old(View())
      ensures trace == old(trace)
        + (if linked then [CreateTemp(slot), Op.Link(slot, record), RemoveTemp(slot)]
           else if slot in old(temps) then [] else [CreateTemp(slot), RemoveTemp(slot)])
    {
      AddRemoveIf(temps, slot);
      var created := CreateTemporary(slot);
      if !created {
        return false;
      }
      linked := LinkRecord(slot, record);
      RemoveTemporary(slot);
    }

    // Tries the slots in ring order until the record is linked into one.
    method LinkSomewhere(lane: Lane, record: Record) returns (found: Option<nat>)
      requires Valid()
      modifies this
      ensures Valid()
      ensures var probe := ProbeFrom(old(View()), lim.capacity, lane, old(summary).Of(lane).write, lim.capacity);
        && found == probe.cursor
        && (found.None? ==> View() == old(View()) && trace == old(trace) + probe.ops)
        && (found.Some? ==>
              && found.value < lim.capacity && Slot(lane, found.value) !in old(temps)
              && View() == old(View()).(slots := old(slots)[Slot(lane, found.value) := record])
              && trace == old(trace) + probe.ops + [Op.Link(Slot(lane, found.value), record), RemoveTemp(Slot(lane, found.value))])
    {
      ghost var d := View();
      var cursor: nat := summary.Of(lane).write;
      var left: nat := lim.capacity;
      ghost var done: seq<Op> := [];
      ghost var probe := ProbeFrom(d, lim.capacity, lane, cursor, left);
      while left > 0
        invariant cursor < lim.capacity && left <= lim.capacity
        invariant View() == d && trace == old(trace) + done
        invariant probe.cursor == ProbeFrom(d, lim.capacity, lane, cursor, left).cursor
        invariant probe.ops == done + ProbeFrom(d, lim.capacity, lane, cursor, left).ops
      {
        var slot := Slot(lane, cursor);
        ghost var rest := ProbeFrom(d, lim.capacity, lane, Next(cursor, lim.capacity), left - 1);
        ProbeStep(d, lim.capacity, lane, cursor, left);
        var linked := TryLink(slot, record);
        if linked {
          assert [CreateTemp(slot), Op.Link(slot, record), RemoveTemp(slot)]
              == [CreateTemp(slot)] + [Op.Link(slot, record), RemoveTemp(slot)];
          Assoc(old(trace) + done, [CreateTemp(slot)], [Op.Link(slot, record), RemoveTemp(slot)]);
          Assoc(old(trace), done, [CreateTemp(slot)]);
          return Some(cursor);
        }
        Assoc(old(trace), done, Tried(d, slot));
        Assoc(done, Tried(d, slot), rest.ops);
        done := done + Tried(d, slot);
        NextIs(cursor, lim.capacity);
        cursor := (cursor + 1) % lim.capacity;
        left := left - 1;
      }
      return None;
    }

    method StoreRecord(lane: Lane, r: NewRecord) returns (result: Enqueued)
      requires Valid()
      modifies this
      ensures Valid()
      ensures var p := Store(old(View()), lim, lane, r);
        result == p.result && trace == old(trace) + p.ops && View() == Run(old(View()), p.ops)
    {
      ghost var d := View();
      var record := Prepare(r, summary.nextSequence);
      var cursor := LinkSomewhere(lane, record);
      ghost var probe := ProbeFrom(d, lim.capacity, lane, d.summary.Of(lane).write, lim.capacity);
      ProbeRun(d, d, lim.capacity, lane, d.summary.Of(lane).write, lim.capacity);
      if cursor.None? {
        RunOne(d, probe.ops, WriteSummary(CountEvent(summary)));
        Assoc(old(trace), probe.ops, [WriteSummary(CountEvent(summary))]);
        Write(CountEvent(summary));
        return NoFreeSlot;
      }
      var slot := Slot(lane, cursor.value);
      NextIs(cursor.value, lim.capacity);
      Write(AfterStore(summary, lim.capacity, lane, cursor.value, r.size));
      StoreSteps(d, d.(temps := d.temps + {slot}), probe.ops, slot, record, summary, StoringOps(slot, record, summary));
      return Stored(slot, record);
    }

    method Refuse() returns (result: Enqueued)
      requires Valid()
      modifies this
      ensures Valid() && result == Full
      ensures var ops := [WriteSummary(CountEvent(old(summary)))];
        trace == old(trace) + ops && View() == Run(old(View()), ops)
    {
      RunOne(View(), [], WriteSummary(CountEvent(summary)));
      assert [] + [WriteSummary(CountEvent(summary))] == [WriteSummary(CountEvent(summary))];
      Write(CountEvent(summary));
      result := Full;
    }

    method Enqueue(lane: Lane, r: NewRecord, dedupe: Dedupe) returns (result: Enqueued)
      requires Valid()
      modifies this
      ensures Valid()
      ensures var p := QueueModel.Enqueue(old(View()), lim, lane, r, dedupe);
        result == p.result && trace == old(trace) + p.ops && View() == Run(old(View()), p.ops)
    {
      var existing := FindExisting(lane, r, dedupe);
      if existing.Some? {
        return Found(existing.value);
      }
      if r.size > lim.recordMaxBytes {
        return TooLarge;
      }
      if summary.TotalCount() >= lim.maxRecords || summary.TotalBytes() + r.size > lim.maxRecordBytes {
        result := Refuse();
        return;
      }
      result := StoreRecord(lane, r);
    }

    // ------------------------------------------------------------ peeking

    // Peeking changes nothing unless the summary claims records that are not there.
    method Peek(lane: Lane) returns (item: Option<Slot>, error: Option<RebuildError>)
      requires Valid()
      modifies this
      ensures Valid()
      ensures old(summary.Of(lane).count) == 0 ==> item.None? && error.None? && View() == old(View()) && trace == old(trace)
      ensures old(summary.Of(lane).count > 0 && |Line(View(), lim.capacity, lane)| > 0) ==>
        item == Some(old(Line(View(), lim.capacity, lane)[0])) && error.None? && View() == old(View()) && trace == old(trace)
      ensures old(summary.Of(lane).count > 0 && |Line(View(), lim.capacity, lane)| == 0) && error.None? ==>
        item.None? && View() == old(Reconciled(View(), lim.capacity, Observed(slots, Scan(lim.capacity))))
    {
      error := None;
      if summary.Of(lane).count == 0 {
        return None, None;
      }
      item := Search(lane);
      if item.Some? {
        return;
      }
      ghost var d := View();
      ghost var observed := Observed(slots, Scan(lim.capacity));
      EmptyLineMeansEmptyLane(d, lim, lane);
      OneSurvivorPerId(d.slots, observed);
      NoneToCount(Kept(d.slots, observed), lane, lim.capacity);
      error := Reconcile();
      if error.Some? || summary.Of(lane).count == 0 {
        return None, error;
      }
      assert false;
    }

    // Inspects at most so many records, in ring order; it rebuilds when it runs once around the
    // ring without seeing as many records as the summary claims.
    method PeekDueRecord(lane: Lane, now: nat, maxRecords: nat)
      returns (item: Option<Slot>, inspected: nat, error: Option<RebuildError>)
      requires Valid()
      modifies this
      ensures Valid()
      ensures var due := PeekDue(old(View()), lim.capacity, lane, now, maxRecords);
        && item == due.item && inspected == due.inspected
        && (!due.rebuild ==> error.None? && View() == old(View()) && trace == old(trace))
        && (due.rebuild && error.None? ==>
              View() == Reconciled(old(View()), lim.capacity, Observed(old(slots), Scan(lim.capacity))))
    {
      item, inspected, error := None, 0, None;
      var l := summary.Of(lane);
      if maxRecords == 0 || l.count == 0 {
        return;
      }
      var limit := if maxRecords < l.count then maxRecords else l.count;
      var cursor: nat := l.head;
      var left: nat := lim.capacity;
      ghost var d := View();
      while left > 0
        invariant View() == d && trace == old(trace) && item.None? && error.None?
        invariant PeekDue(d, lim.capacity, lane, now, maxRecords)
               == DueFrom(d.slots, lim.capacity, lane, cursor, left, now, inspected, limit)
      {
        var slot := Slot(lane, cursor);
        if slot in slots {
          inspected := inspected + 1;
          if IsDue(slots[slot], now) {
            item := Some(slot);
            return;
          }
          if inspected >= limit {
            return;
          }
        }
        cursor := (cursor + 1) % lim.capacity;
        left := left - 1;
      }
      error := Reconcile();
    }

    // ------------------------------------------------------------ completing and moving

    method Complete(slot: Slot, id: nat, generation: nat) returns (outcome: Outcome)
      requires Valid() && slot.cursor < lim.capacity
      modifies this
      ensures Valid()
      ensures outcome.Completed? <==>
        slot in old(slots) && old(slots)[slot].id == id && old(slots)[slot].generation == generation
      ensures outcome.Completed? ==>
        && View() == Run(old(View()), CompleteOps(old(View()), lim, slot))
        && trace == old(trace) + CompleteOps(old(View()), lim, slot)
      ensures outcome.OwnershipChanged? ==> slot in old(slots) && View() == old(View()) && trace == old(trace)
      ensures outcome.Gone? ==> slot !in old(slots)
      ensures outcome.Gone? && outcome.error.None? ==>
        View() == Reconciled(old(View()), lim.capacity, Observed(old(slots), Scan(lim.capacity)))
    {
      if slot !in slots {
        var error := Reconcile();
        return Gone(error);
      }
      var record := slots[slot];
      if record.id != id || record.generation != generation {
        return OwnershipChanged;
      }
      ghost var d := View();
      NextIs(slot.cursor, lim.capacity);
      Remove(slot);
      Write(AfterRemove(summary, lim.capacity, slot, record.size));
      CompleteEffect(d, lim, slot);
      return Completed;
    }

    // Enqueue in the destination, then complete in the source.  While the item is in its slot these
    // are the steps of the specified move; an item whose slot was emptied is enqueued all the same
    // and the summary rebuilt, and one whose slot holds another record, be it the new one, is
    // enqueued and then refused.
    method Relocate(slot: Slot, item: Record, lane: Lane, size: nat, dueAt: Option<nat>, body: nat)
      returns (result: Enqueued, outcome: Option<Outcome>)
      requires Valid() && slot.cursor < lim.capacity
      modifies this
      ensures Valid()
      ensures slot in old(slots) && old(slots)[slot] == item ==>
        var p := Move(old(View()), lim, slot, lane, size, dueAt, body);
        && result == p.result && trace == old(trace) + p.ops && View() == Run(old(View()), p.ops)
        && outcome == if result.Stored? || result.Found? then Some(Completed) else None
      ensures var enqueue := QueueModel.Enqueue(old(View()), lim, lane, Moved(item, size, dueAt, body), ByGeneration);
        var between := Run(old(View()), enqueue.ops);
        && result == enqueue.result && (outcome.Some? <==> result.Stored? || result.Found?)
        && (outcome.None? ==> View() == between && trace == old(trace) + enqueue.ops)
        && (outcome.Some? && slot !in between.slots ==>
              && outcome.value.Gone?
              && (outcome.value.error.None? ==>
                    View() == Reconciled(between, lim.capacity, Observed(between.slots, Scan(lim.capacity)))))
        && (outcome.Some? && slot in between.slots ==>
              if between.slots[slot].id == item.id && between.slots[slot].generation == item.generation then
                outcome.value.Completed? && View() == Run(between, CompleteOps(between, lim, slot))
              else outcome.value.OwnershipChanged? && View() == between)
    {
      ghost var d := View();
      ghost var enqueue := QueueModel.Enqueue(d, lim, lane, Moved(item, size, dueAt, body), ByGeneration);
      outcome := None;
      result := Enqueue(lane, Moved(item, size, dueAt, body), ByGeneration);
      if result.Stored? || result.Found? {
        ghost var between := View();
        if slot in d.slots {
          EnqueueLeavesRecords(d, lim, lane, Moved(item, size, dueAt, body), slot);
        }
        var completed := Complete(slot, item.id, item.generation);
        outcome := Some(completed);
        if slot in between.slots {
          Assoc(old(trace), enqueue.ops, CompleteOps(between, lim, slot));
          RunConcat(d, enqueue.ops, CompleteOps(between, lim, slot));
        }
      }
    }

    // ------------------------------------------------------------ rebuilding

    // At one slot of the scan: its temporary file, if any, goes.
    method ClearTemporary(slot: Slot, ghost d: Disk, ghost start: Disk, ghost before: seq<Op>)
      requires Valid() && (slot in temps <==> slot in d.temps)
      requires trace == before + LaneTempOps(d.temps, slot.lane, slot.cursor)
      requires View() == Run(start, LaneTempOps(d.temps, slot.lane, slot.cursor))
      modifies this
      ensures Valid() && slots == old(slots) && summary == old(summary) && temps == old(temps) - {slot}
      ensures trace == before + LaneTempOps(d.temps, slot.lane, slot.cursor + 1)
      ensures View() == Run(start, LaneTempOps(d.temps, slot.lane, slot.cursor + 1))
    {
      if slot in temps {
        RunOne(start, LaneTempOps(d.temps, slot.lane, slot.cursor), RemoveTemp(slot));
        Assoc(before, LaneTempOps(d.temps, slot.lane, slot.cursor), [RemoveTemp(slot)]);
        RemoveTemporary(slot);
      }
    }

    // One lane of the scan: temporary files go, records are noted, until there are too many.
    method ScanOne(lane: Lane, seen: seq<Slot>, ghost d: Disk) returns (observed: seq<Slot>, tooMany: bool)
      requires Valid() && slots == d.slots && |seen| <= lim.maxRecords
      requires forall c: nat :: Slot(lane, c) in temps <==> Slot(lane, c) in d.temps
      modifies this
      ensures Valid() && slots == d.slots && summary == old(summary)
      ensures temps <= old(temps) && forall s :: s in old(temps) && s.lane != lane ==> s in temps
      ensures tooMany <==> |seen| + |LaneObserved(d.slots, lane, lim.capacity)| > lim.maxRecords
      ensures !tooMany ==>
        && observed == seen + LaneObserved(d.slots, lane, lim.capacity)
        && trace == old(trace) + LaneTempOps(d.temps, lane, lim.capacity)
        && View() == Run(old(View()), LaneTempOps(d.temps, lane, lim.capacity))
    {
      observed, tooMany := seen, false;
      var cursor: nat := 0;
      ghost var start := View();
      while cursor < lim.capacity
        invariant cursor <= lim.capacity && Valid() && slots == d.slots && summary == old(summary)
        invariant temps <= old(temps) && forall s :: s in old(temps) && s.lane != lane ==> s in temps
        invariant forall c: nat :: cursor <= c ==> (Slot(lane, c) in temps <==> Slot(lane, c) in d.temps)
        invariant observed == seen + LaneObserved(d.slots, lane, cursor) && |observed| <= lim.maxRecords && !tooMany
        invariant trace == old(trace) + LaneTempOps(d.temps, lane, cursor)
        invariant View() == Run(start, LaneTempOps(d.temps, lane, cursor))
      {
        var slot := Slot(lane, cursor);
        ClearTemporary(slot, d, start, old(trace));
        if slot in slots {
          observed := observed + [slot];
          if |observed| > lim.maxRecords {
            LaneObservedGrows(d.slots, lane, cursor + 1, lim.capacity);
            return observed, true;
          }
        }
        cursor := cursor + 1;
      }
    }

    // Every lane in turn.
    method ScanAll() returns (observed: seq<Slot>, tooMany: bool)
      requires Valid()
      modifies this
      ensures Valid() && slots == old(slots) && summary == old(summary) && temps <= old(temps)
      ensures tooMany <==> |AllObserved(old(slots), lim.capacity)| > lim.maxRecords
      ensures !tooMany ==>
        && observed == AllObserved(old(slots), lim.capacity)
        && trace == old(trace) + AllTempOps(old(temps), lim.capacity)
        && View() == Run(old(View()), AllTempOps(old(temps), lim.capacity))
    {
      ghost var d := View();
      observed, tooMany := ScanOne(Ready, [], d);
      if tooMany {
        return;
      }
      observed, tooMany := ScanOne(Deferred, observed, d);
      if tooMany {
        return;
      }
      observed, tooMany := ScanOne(Held, observed, d);
      if tooMany {
        return;
      }
      RunInThree(d, LaneTempOps(d.temps, Ready, lim.capacity), LaneTempOps(d.temps, Deferred, lim.capacity),
                 LaneTempOps(d.temps, Held, lim.capacity));
      Assoc(old(trace), LaneTempOps(d.temps, Ready, lim.capacity), LaneTempOps(d.temps, Deferred, lim.capacity));
      Assoc(old(trace), LaneTempOps(d.temps, Ready, lim.capacity) + LaneTempOps(d.temps, Deferred, lim.capacity),
            LaneTempOps(d.temps, Held, lim.capacity));
    }

    // The winner of every identifier: a higher rank replaces, an equal one does not.
    method FindWinners(observed: seq<Slot>) returns (winners: map<nat, Slot>)
      requires forall s :: s in observed ==> s in slots
      ensures winners == Winners(slots, observed)
    {
      winners := map[];
      var i := 0;
      while i < |observed|
        invariant i <= |observed| && winners == Winners(slots, observed[..i])
      {
        var slot := observed[i];
        var id := slots[slot].id;
        assert observed[..i + 1][..i] == observed[..i];
        if id !in winners || Outranks(slots, slot, winners[id]) {
          winners := winners[id := slot];
        }
        i := i + 1;
      }
      assert observed[..i] == observed;
    }

    // At one slot of the listing: a record that is not the winner of its identifier goes.
    method RemoveIfLost(observed: seq<Slot>, i: nat, lost: bool, ghost kept: map<Slot, Record>, ghost start: Disk, ghost before: seq<Op>)
      requires Valid() && i < |observed| && (lost <==> observed[i] !in kept)
      requires trace == before + LosersTo(kept, observed, i) && View() == Run(start, LosersTo(kept, observed, i))
      modifies this
      ensures Valid()
      ensures trace == before + LosersTo(kept, observed, i + 1) && View() == Run(start, LosersTo(kept, observed, i + 1))
    {
      if lost {
        RunOne(start, LosersTo(kept, observed, i), RemoveRecord(observed[i]));
        Assoc(before, LosersTo(kept, observed, i), [RemoveRecord(observed[i])]);
        Remove(observed[i]);
      }
    }

    method RemoveLosers(observed: seq<Slot>, winners: map<nat, Slot>)
      requires Valid() && (forall s :: s in observed ==> s in slots) && winners == Winners(slots, observed)
      modifies this
      ensures Valid()
      ensures var ops := LosersTo(Kept(old(slots), observed), observed, |observed|);
        View() == Run(old(View()), ops) && trace == old(trace) + ops
    {
      var records := slots;
      ghost var start, kept := View(), Kept(records, observed);
      var i: nat := 0;
      while i < |observed|
        invariant i <= |observed| && Valid()
        invariant trace == old(trace) + LosersTo(kept, observed, i)
        invariant View() == Run(start, LosersTo(kept, observed, i))
      {
        var slot := observed[i];
        assert slot in observed;
        KeptIsWinner(records, observed, slot);
        RemoveIfLost(observed, i, winners[records[slot].id] != slot, kept, start, old(trace));
        i := i + 1;
      }
    }

    // The scan, and the removal of everything that lost.
    method Clean() returns (tooMany: bool)
      requires Valid()
      modifies this
      ensures Valid()
      ensures var d, observed := old(View()), Observed(old(slots), Scan(lim.capacity));
        && (tooMany <==> |observed| > lim.maxRecords)
        && (tooMany ==> slots == d.slots && summary == d.summary && temps <= d.temps)
        && (!tooMany ==>
              && View() == Disk(Kept(d.slots, observed), {}, d.summary)
              && trace == old(trace) + (TempOps(d.temps, Scan(lim.capacity)) + LoserOps(Kept(d.slots, observed), observed)))
    {
      ghost var d := View();
      ScanParts(d, lim.capacity);
      var observed;
      observed, tooMany := ScanAll();
      if tooMany {
        return;
      }
      ghost var kept := Kept(d.slots, observed);
      var winners := FindWinners(observed);
      RemoveLosers(observed, winners);
      LosersToIs(kept, observed, |observed|);
      assert observed[..|observed|] == observed;
      Assoc(old(trace), TempOps(d.temps, Scan(lim.capacity)), LoserOps(kept, observed));
      RunConcat(d, TempOps(d.temps, Scan(lim.capacity)), LoserOps(kept, observed));
      CleaningRuns(d, Scan(lim.capacity), observed);
    }

    // Count, bytes and cursors of one lane, from its records.
    method SumLane(lane: Lane) returns (l: LaneState, next: nat)
      requires Valid()
      ensures l == RebuiltLane(slots, lane, lim.capacity) && next == NextAfter(slots, lane, lim.capacity)
    {
      var first: Option<nat>, last: Option<nat>, count: nat, bytes: nat := None, None, 0, 0;
      var cursor: nat := 0;
      while cursor < lim.capacity
        invariant cursor <= lim.capacity
        invariant first == FirstCursor(slots, lane, cursor) && last == LastCursor(slots, lane, cursor)
        invariant count == CountUpTo(slots, lane, cursor) && bytes == BytesUpTo(slots, lane, cursor)
      {
        var slot := Slot(lane, cursor);
        if slot in slots {
          count := count + 1;
          bytes := bytes + slots[slot].size;
          if first.None? || slots[slot].sequence < slots[Slot(lane, first.value)].sequence {
            first := Some(cursor);
          }
          if last.None? || slots[slot].sequence >= slots[Slot(lane, last.value)].sequence {
            last := Some(cursor);
          }
        }
        cursor := cursor + 1;
      }
      next := if last.Some? then slots[Slot(lane, last.value)].sequence + 1 else 0;
      l := LaneState(if first.Some? then first.value else 0,
                     if last.Some? then (last.value + 1) % lim.capacity else 0, count, bytes);
    }

    // The whole summary, and the bytes of all three lanes.
    method SumLanes() returns (s: Summary, bytes: nat)
      requires Valid()
      ensures s == Rebuilt(slots, lim.capacity, summary.capacityEvents) && bytes == TotalSize(slots, lim.capacity)
    {
      var ready, nextReady := SumLane(Ready);
      var deferred, nextDeferred := SumLane(Deferred);
      var held, nextHeld := SumLane(Held);
      s := Summary(Max(nextReady, Max(nextDeferred, nextHeld)), summary.capacityEvents, ready, deferred, held);
      bytes := ready.bytes + deferred.bytes + held.bytes;
    }

    // The sums become the summary, unless they are too large.
    method WriteSums(ghost ops: seq<Op>, ghost before: seq<Op>) returns (tooMany: bool)
      requires Valid() && trace == before + ops
      modifies this
      ensures Valid() && tooMany == (TotalSize(old(slots), lim.capacity) > lim.maxRecordBytes)
      ensures tooMany ==> View() == old(View())
      ensures !tooMany ==>
        var rebuilt := Rebuilt(old(slots), lim.capacity, old(summary).capacityEvents);
        View() == old(View()).(summary := rebuilt) && trace == before + (ops + [WriteSummary(rebuilt)])
    {
      var rebuilt, bytes := SumLanes();
      if bytes > lim.maxRecordBytes {
        return true;
      }
      RebuiltWithin(slots, lim.capacity, summary.capacityEvents);
      Assoc(before, ops, [WriteSummary(rebuilt)]);
      Write(rebuilt);
      return false;
    }

    method Reconcile() returns (error: Option<RebuildError>)
      requires Valid()
      modifies this
      ensures Valid()
      ensures var d := old(View());
        var observed := Observed(d.slots, Scan(lim.capacity));
        var kept := Kept(d.slots, observed);
        if |observed| > lim.maxRecords then
          error == Some(TooManyRecords) && slots == d.slots && summary == d.summary && temps <= d.temps
        else if TotalSize(kept, lim.capacity) > lim.maxRecordBytes then
          error == Some(TooManyBytes) && View() == Disk(kept, {}, d.summary)
        else
          && error == None && View() == Reconciled(d, lim.capacity, observed)
          && trace == old(trace) + ReconcileOps(d, lim.capacity, Scan(lim.capacity), observed)
    {
      var tooMany := Clean();
      if tooMany {
        return Some(TooManyRecords);
      }
      ghost var observed := Observed(old(slots), Scan(lim.capacity));
      tooMany := WriteSums(TempOps(old(temps), Scan(lim.capacity)) + LoserOps(Kept(old(slots), observed), observed), old(trace));
      return if tooMany then Some(TooManyBytes) else None;
    }
  }
}
