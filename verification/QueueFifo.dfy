/**
  With enqueues, completions and moves of peeked records, and rebuilds, the queue is three plain
  lists: what the ring slots hold, read from the head on, is what a list would hold.
 */
module QueueFifo {
  import opened Options
  import opened QueueModel
  import opened QueueAccounting
  import opened QueueRecovery
  import opened QueueOrder

  // ---------------------------------------------------------------- three lists

  datatype Lists = Lists(ready: seq<NewRecord>, deferred: seq<NewRecord>, held: seq<NewRecord>) {
    function Of(lane: Lane): seq<NewRecord> {
      match lane case Ready => ready case Deferred => deferred case Held => held
    }

    function With(lane: Lane, s: seq<NewRecord>): Lists {
      match lane
      case Ready => this.(ready := s)
      case Deferred => this.(deferred := s)
      case Held => this.(held := s)
    }

    function Count(): nat { |ready| + |deferred| + |held| }

    function Bytes(): nat { Total(ready) + Total(deferred) + Total(held) }

    ghost predicate Has(id: nat) {
      exists lane, i: nat :: i < |Of(lane)| && Of(lane)[i].id == id
    }
  }

  function Total(rs: seq<NewRecord>): nat { if |rs| == 0 then 0 else rs[0].size + Total(rs[1..]) }

  predicate Room(ls: Lists, lim: Limits, size: nat) {
    size <= lim.recordMaxBytes && ls.Count() < lim.maxRecords && ls.Bytes() + size <= lim.maxRecordBytes
  }

  datatype Command =
    | Put(lane: Lane, record: NewRecord)
    | Take(lane: Lane)
    | Relay(lane: Lane, to: Lane, size: nat, dueAt: Option<nat>, body: nat)
    | Rebuild(listing: seq<Slot>)

  function Popped(ls: Lists, lane: Lane): Lists
    requires |ls.Of(lane)| > 0
  {
    ls.With(lane, ls.Of(lane)[1..])
  }

  function Pushed(ls: Lists, lane: Lane, r: NewRecord): Lists { ls.With(lane, ls.Of(lane) + [r]) }

  // The next generation of a record.
  function Renewed(r: NewRecord, size: nat, dueAt: Option<nat>, body: nat): NewRecord {
    NewRecord(r.id, r.generation + 1, size, dueAt, body)
  }

  // The specification: what a command does to three lists.
  ghost function Obey(ls: Lists, lim: Limits, c: Command): Lists {
    match c
    case Put(lane, r) => if !ls.Has(r.id) && Room(ls, lim, r.size) then Pushed(ls, lane, r) else ls
    case Take(lane) => if |ls.Of(lane)| > 0 then Popped(ls, lane) else ls
    case Relay(lane, to, size, dueAt, body) =>
      if |ls.Of(lane)| > 0 && Room(ls, lim, size)
      then Popped(Pushed(ls, to, Renewed(ls.Of(lane)[0], size, dueAt, body)), lane) else ls
    case Rebuild(_) => ls
  }

  // ---------------------------------------------------------------- the queue's own commands

  function Peeked(d: Disk, lim: Limits, lane: Lane): Option<Slot>
    requires lim.capacity > 0
  {
    if d.summary.Of(lane).count == 0 then None
    else FindItem(d.slots, lim.capacity, lane, d.summary.Of(lane).head, lim.capacity)
  }

  ghost function Perform(d: Disk, lim: Limits, c: Command): Disk
    requires lim.capacity > 0
  {
    match c
    case Put(lane, r) => Run(d, Enqueue(d, lim, lane, r, ById).ops)
    case Take(lane) =>
      var found := Peeked(d, lim, lane);
      if found.Some? && found.value in d.slots then Run(d, CompleteOps(d, lim, found.value)) else d
    case Relay(lane, to, size, dueAt, body) =>
      var found := Peeked(d, lim, lane);
      if found.Some? && found.value in d.slots then Run(d, Move(d, lim, found.value, to, size, dueAt, body).ops) else d
    case Rebuild(listing) => if Covers(d.slots, listing) then Reconciled(d, lim.capacity, listing) else d
  }

  // ---------------------------------------------------------------- the queue read as lists

  function Plain(r: Record): NewRecord { NewRecord(r.id, r.generation, r.size, r.dueAt, r.body) }

  function Plains(slots: map<Slot, Record>, w: seq<Slot>): seq<NewRecord>
    requires forall s :: s in w ==> s in slots
  {
    seq(|w|, (i: nat) requires i < |w| && w[i] in slots => Plain(slots[w[i]]))
  }

  function ViewOf(d: Disk, capacity: nat, lane: Lane): seq<NewRecord>
    requires capacity > 0
  {
    Plains(d.slots, Line(d, capacity, lane))
  }

  function View(d: Disk, capacity: nat): Lists
    requires capacity > 0
  {
    Lists(ViewOf(d, capacity, Ready), ViewOf(d, capacity, Deferred), ViewOf(d, capacity, Held))
  }

  lemma {:induction false} SizesAreTotal(slots: map<Slot, Record>, w: seq<Slot>)
    requires forall s :: s in w ==> s in slots
    ensures Sizes(slots, w) == Total(Plains(slots, w))
  {
    if |w| > 0 {
      SizesAreTotal(slots, w[1..]);
      assert Plains(slots, w)[1..] == Plains(slots, w[1..]);
    }
  }

  lemma LaneTotals(d: Disk, lim: Limits, lane: Lane)
    requires Accurate(d, lim)
    ensures |ViewOf(d, lim.capacity, lane)| == d.summary.Of(lane).count
    ensures Total(ViewOf(d, lim.capacity, lane)) == d.summary.Of(lane).bytes
  {
    assert LaneAccurate(d, lim, lane);
    FullWalk(d.slots, lim.capacity, lane, d.summary.Of(lane).head);
    SizesAreTotal(d.slots, Line(d, lim.capacity, lane));
  }

  lemma RoomAgrees(d: Disk, lim: Limits)
    requires Accurate(d, lim)
    ensures View(d, lim.capacity).Count() == d.summary.TotalCount()
    ensures View(d, lim.capacity).Bytes() == d.summary.TotalBytes()
  {
    LaneTotals(d, lim, Ready);
    LaneTotals(d, lim, Deferred);
    LaneTotals(d, lim, Held);
  }

  lemma FoundIffHas(d: Disk, lim: Limits, id: nat)
    requires Accurate(d, lim)
    ensures FindId(d.slots, lim.capacity, id).Some? <==> View(d, lim.capacity).Has(id)
  {
    var ls := View(d, lim.capacity);
    var found := FindId(d.slots, lim.capacity, id);
    if found.Some? {
      var s := found.value;
      assert LaneAccurate(d, lim, s.lane);
      WalkIsOrdered(d.slots, lim.capacity, s.lane, d.summary.Of(s.lane).head, lim.capacity);
      var line := Line(d, lim.capacity, s.lane);
      assert s in line;
      var i: nat :| i < |line| && line[i] == s;
      assert ls.Of(s.lane)[i].id == id;
    } else {
      FindIdMisses(d.slots, lim.capacity, id);
      forall lane, i: nat | i < |ls.Of(lane)|
        ensures ls.Of(lane)[i].id != id
      {
        assert Line(d, lim.capacity, lane)[i] in Line(d, lim.capacity, lane);
      }
    }
  }

  // ---------------------------------------------------------------- one step on one lane

  // Two rings over the same slots of a lane hold the same line.
  lemma SameLane(d: Disk, e: Disk, lim: Limits, lane: Lane)
    requires InOrder(d, lim, lane) && InOrder(e, lim, lane)
    requires e.summary.Of(lane) == d.summary.Of(lane)
    requires forall c: nat :: Slot(lane, c) in d.slots ==> Slot(lane, c) in e.slots && e.slots[Slot(lane, c)] == d.slots[Slot(lane, c)]
    ensures ViewOf(e, lim.capacity, lane) == ViewOf(d, lim.capacity, lane)
  {
    LineIsStretch(d, lim, lane);
    LineIsStretch(e, lim, lane);
    var line := Line(d, lim.capacity, lane);
    forall i: nat | i < |line|
      ensures line[i] in d.slots && e.slots[line[i]] == d.slots[line[i]]
    {
      assert line[i] in line;
      assert line[i] == Slot(lane, line[i].cursor);
    }
  }

  lemma StretchGrows(lane: Lane, h: nat, n: nat, write: nat, capacity: nat)
    requires h < capacity && n < capacity && write == At(h, n, capacity)
    ensures Stretch(lane, h, n + 1, capacity) == Stretch(lane, h, n, capacity) + [Slot(lane, write)]
  {
  }

  lemma StretchDrops(lane: Lane, h: nat, n: nat, capacity: nat)
    requires h < capacity && 0 < n <= capacity
    ensures Stretch(lane, h, n, capacity) == [Slot(lane, h)] + Stretch(lane, Next(h, capacity), n - 1, capacity)
  {
    NextIs(h, capacity);
    forall i: nat | 0 < i < n
      ensures At(h, i, capacity) == At(Next(h, capacity), i - 1, capacity)
    {
    }
  }

  lemma PlainsAfterAdd(slots: map<Slot, Record>, w: seq<Slot>, s: Slot, r: Record)
    requires s !in slots && forall t :: t in w ==> t in slots
    ensures Plains(slots[s := r], w + [s]) == Plains(slots, w) + [Plain(r)]
  {
    var more := slots[s := r];
    forall i: nat | i < |w|
      ensures Plain(more[(w + [s])[i]]) == Plain(slots[w[i]])
    {
      assert w[i] in w;
    }
  }

  // A stored record joins the end of its lane.
  lemma EnqueueAppends(d: Disk, lim: Limits, lane: Lane, r: NewRecord, dedupe: Dedupe)
    requires Accurate(d, lim) && InOrder(d, lim, lane)
    ensures var p := Enqueue(d, lim, lane, r, dedupe);
      ViewOf(Run(d, p.ops), lim.capacity, lane)
        == if p.result.Stored? then ViewOf(d, lim.capacity, lane) + [r] else ViewOf(d, lim.capacity, lane)
  {
    var p := Enqueue(d, lim, lane, r, dedupe);
    var after := Run(d, p.ops);
    var l := d.summary.Of(lane);
    EnqueueState(d, lim, lane, r, dedupe);
    EnqueueKeepsLane(d, lim, lane, r, dedupe);
    LineIsStretch(d, lim, lane);
    LineIsStretch(after, lim, lane);
    if p.result.Stored? {
      StoresAtWrite(d, lim, lane, r, dedupe);
      assert l.write < lim.capacity by { assert LaneAccurate(d, lim, lane); }
      var head := if l.count == 0 then l.write else l.head;
      StretchGrows(lane, head, l.count, l.write, lim.capacity);
      assert Stretch(lane, head, l.count, lim.capacity) == Stretch(lane, l.head, l.count, lim.capacity);
      PlainsAfterAdd(d.slots, Line(d, lim.capacity, lane), p.result.slot, p.result.record);
    }
  }

  lemma EnqueueLeavesOthers(d: Disk, lim: Limits, lane: Lane, r: NewRecord, dedupe: Dedupe, other: Lane)
    requires Accurate(d, lim) && InOrder(d, lim, lane) && InOrder(d, lim, other) && lane != other
    ensures ViewOf(Run(d, Enqueue(d, lim, lane, r, dedupe).ops), lim.capacity, other) == ViewOf(d, lim.capacity, other)
  {
    EnqueueKeepsOtherLane(d, lim, lane, r, dedupe, other);
    EnqueueState(d, lim, lane, r, dedupe);
    SameLane(d, Run(d, Enqueue(d, lim, lane, r, dedupe).ops), lim, other);
  }

  lemma PlainsAfterDrop(slots: map<Slot, Record>, fewer: map<Slot, Record>, s: Slot, w: seq<Slot>)
    requires s in slots && fewer == slots - {s} && forall t :: t in w ==> t in fewer
    ensures forall t :: t in [s] + w ==> t in slots
    ensures Plains(slots, [s] + w) == [Plain(slots[s])] + Plains(fewer, w)
  {
    assert Plains(slots, [s] + w)[1..] == Plains(fewer, w);
  }

  // Completing the head takes the first record away.
  lemma CompletePops(d: Disk, lim: Limits, lane: Lane)
    requires Accurate(d, lim) && InOrder(d, lim, lane) && d.summary.Of(lane).count > 0
    ensures var slot := Slot(lane, d.summary.Of(lane).head);
      && slot in d.slots
      && ViewOf(d, lim.capacity, lane)
         == [Plain(d.slots[slot])] + ViewOf(Run(d, CompleteOps(d, lim, slot)), lim.capacity, lane)
  {
    var l := d.summary.Of(lane);
    var slot := Slot(lane, l.head);
    CompleteHeadKeepsLane(d, lim, lane);
    CompleteEffect(d, lim, slot);
    var after := Run(d, CompleteOps(d, lim, slot));
    LineIsStretch(d, lim, lane);
    LineIsStretch(after, lim, lane);
    StretchDrops(lane, l.head, l.count, lim.capacity);
    assert after.summary.Of(lane).head == Next(l.head, lim.capacity) && after.summary.Of(lane).count == l.count - 1;
    PlainsAfterDrop(d.slots, after.slots, slot, Line(after, lim.capacity, lane));
  }

  lemma CompleteLeavesOthers(d: Disk, lim: Limits, slot: Slot, other: Lane)
    requires lim.capacity > 0 && slot in d.slots && slot.lane != other && InOrder(d, lim, other)
    ensures ViewOf(Run(d, CompleteOps(d, lim, slot)), lim.capacity, other) == ViewOf(d, lim.capacity, other)
  {
    CompleteKeepsOtherLane(d, lim, slot, other);
    CompleteEffect(d, lim, slot);
    SameLane(d, Run(d, CompleteOps(d, lim, slot)), lim, other);
  }

  // ---------------------------------------------------------------- rebuilding

  lemma HeadIsLowest(slots: map<Slot, Record>, lane: Lane, l: LaneState, capacity: nat, c: nat)
    requires Ring(slots, lane, l, capacity) && l.count > 0 && c < capacity && c != l.head && Slot(lane, c) in slots
    ensures Slot(lane, l.head) in slots && slots[Slot(lane, l.head)].sequence < slots[Slot(lane, c)].sequence
  {
    assert Distance(l.head, l.head, capacity) < Distance(l.head, c, capacity);
  }

  lemma RebuiltHead(slots: map<Slot, Record>, lane: Lane, l: LaneState, capacity: nat)
    requires Ring(slots, lane, l, capacity) && l.count > 0
    ensures FirstCursor(slots, lane, capacity) == Some(l.head)
  {
    assert Distance(l.head, l.head, capacity) == 0;
    forall c: nat | c < capacity && c != l.head && Slot(lane, c) in slots
      ensures slots[Slot(lane, l.head)].sequence < slots[Slot(lane, c)].sequence
    {
      HeadIsLowest(slots, lane, l, capacity, c);
    }
    FirstIsLowest(slots, lane, capacity);
  }

  lemma RebuiltLast(slots: map<Slot, Record>, lane: Lane, l: LaneState, capacity: nat)
    requires Ring(slots, lane, l, capacity) && l.count > 0
    ensures LastCursor(slots, lane, capacity) == Some(At(l.head, l.count - 1, capacity))
  {
    var last := At(l.head, l.count - 1, capacity);
    DistanceToAt(l.head, l.count - 1, capacity);
    LastIsHighest(slots, lane, capacity);
    assert Slot(lane, last) in slots;
  }

  lemma RebuildKeepsRing(slots: map<Slot, Record>, lane: Lane, l: LaneState, capacity: nat)
    requires Ring(slots, lane, l, capacity) && l.count == CountUpTo(slots, lane, capacity)
    ensures Ring(slots, lane, RebuiltLane(slots, lane, capacity), capacity)
    ensures Walk(slots, capacity, lane, RebuiltLane(slots, lane, capacity).head, capacity) == Walk(slots, capacity, lane, l.head, capacity)
  {
    var b := RebuiltLane(slots, lane, capacity);
    if l.count > 0 {
      RebuiltHead(slots, lane, l, capacity);
      RebuiltLast(slots, lane, l, capacity);
      NextIs(At(l.head, l.count - 1, capacity), capacity);
    } else {
      FullWalk(slots, capacity, lane, b.head);
      FullWalk(slots, capacity, lane, l.head);
      forall c | 0 <= c < capacity
        ensures Slot(lane, c) !in slots
      {
        assert Distance(l.head, c, capacity) >= 0;
      }
    }
  }

  lemma RebuildKeepsOrder(d: Disk, lim: Limits, listing: seq<Slot>)
    requires AllInOrder(d, lim) && Covers(d.slots, listing)
    ensures var after := Reconciled(d, lim.capacity, listing);
      AllInOrder(after, lim) && View(after, lim.capacity) == View(d, lim.capacity)
  {
    DistinctAreAllKept(d.slots, listing);
    RebuildIsAccurate(d.slots, lim, d.summary.capacityEvents);
    RebuildKeepsRing(d.slots, Ready, d.summary.ready, lim.capacity);
    RebuildKeepsRing(d.slots, Deferred, d.summary.deferred, lim.capacity);
    RebuildKeepsRing(d.slots, Held, d.summary.held, lim.capacity);
  }

  // ---------------------------------------------------------------- every command

  // The queue takes a record exactly when the lists do.
  lemma PutStoresIff(d: Disk, lim: Limits, lane: Lane, r: NewRecord)
    requires Accurate(d, lim)
    ensures Enqueue(d, lim, lane, r, ById).result.Stored?
      <==> !View(d, lim.capacity).Has(r.id) && Room(View(d, lim.capacity), lim, r.size)
  {
    RoomAgrees(d, lim);
    FoundIffHas(d, lim, r.id);
    FreeSlotExists(d, lim, lane, r, ById);
  }

  lemma PutObeys(d: Disk, lim: Limits, c: Command)
    requires AllInOrder(d, lim) && c.Put?
    ensures AllInOrder(Perform(d, lim, c), lim)
    ensures View(Perform(d, lim, c), lim.capacity) == Obey(View(d, lim.capacity), lim, c)
  {
    EnqueueKeeps(d, lim, c.lane, c.record, ById);
    EnqueueKeepsIds(d, lim, c.lane, c.record);
    PutStoresIff(d, lim, c.lane, c.record);
    EnqueueOnLanes(d, lim, c.lane, c.record, ById);
  }

  lemma EnqueueKeepsIds(d: Disk, lim: Limits, lane: Lane, r: NewRecord)
    requires Accurate(d, lim) && IdsDistinct(d.slots)
    ensures IdsDistinct(Run(d, Enqueue(d, lim, lane, r, ById).ops).slots)
  {
    EnqueueEffect(d, lim, lane, r, ById);
    FreeSlotExists(d, lim, lane, r, ById);
    if Enqueue(d, lim, lane, r, ById).result.Stored? {
      FindIdMisses(d.slots, lim.capacity, r.id);
    }
  }

  ghost predicate LanesInOrder(d: Disk, lim: Limits) {
    InOrder(d, lim, Ready) && InOrder(d, lim, Deferred) && InOrder(d, lim, Held)
  }

  lemma EnqueueOnLanes(d: Disk, lim: Limits, lane: Lane, r: NewRecord, dedupe: Dedupe)
    requires Accurate(d, lim) && LanesInOrder(d, lim)
    ensures var p := Enqueue(d, lim, lane, r, dedupe);
      var after := Run(d, p.ops);
      && LanesInOrder(after, lim)
      && View(after, lim.capacity) == if p.result.Stored? then Pushed(View(d, lim.capacity), lane, r) else View(d, lim.capacity)
  {
    EnqueueKeepsLane(d, lim, lane, r, dedupe);
    EnqueueAppends(d, lim, lane, r, dedupe);
    forall other: Lane | other != lane
      ensures InOrder(Run(d, Enqueue(d, lim, lane, r, dedupe).ops), lim, other)
      ensures ViewOf(Run(d, Enqueue(d, lim, lane, r, dedupe).ops), lim.capacity, other) == ViewOf(d, lim.capacity, other)
    {
      assert InOrder(d, lim, other) by { match other case Ready => {} case Deferred => {} case Held => {} }
      EnqueueKeepsOtherLane(d, lim, lane, r, dedupe, other);
      EnqueueLeavesOthers(d, lim, lane, r, dedupe, other);
    }
  }

  lemma CompleteOnLanes(d: Disk, lim: Limits, lane: Lane)
    requires Accurate(d, lim) && LanesInOrder(d, lim) && d.summary.Of(lane).count > 0
    ensures var slot := Slot(lane, d.summary.Of(lane).head);
      && slot in d.slots && |View(d, lim.capacity).Of(lane)| > 0
      && View(d, lim.capacity).Of(lane)[0] == Plain(d.slots[slot])
      && LanesInOrder(Run(d, CompleteOps(d, lim, slot)), lim)
      && View(Run(d, CompleteOps(d, lim, slot)), lim.capacity) == Popped(View(d, lim.capacity), lane)
  {
    var slot := Slot(lane, d.summary.Of(lane).head);
    CompleteHeadKeepsLane(d, lim, lane);
    CompletePops(d, lim, lane);
    if lane != Ready {
      CompleteOnOtherLane(d, lim, slot, Ready);
    }
    if lane != Deferred {
      CompleteOnOtherLane(d, lim, slot, Deferred);
    }
    if lane != Held {
      CompleteOnOtherLane(d, lim, slot, Held);
    }
  }

  lemma CompleteOnOtherLane(d: Disk, lim: Limits, slot: Slot, other: Lane)
    requires Accurate(d, lim) && LanesInOrder(d, lim) && slot in d.slots && slot.lane != other
    ensures InOrder(Run(d, CompleteOps(d, lim, slot)), lim, other)
    ensures ViewOf(Run(d, CompleteOps(d, lim, slot)), lim.capacity, other) == ViewOf(d, lim.capacity, other)
  {
    assert InOrder(d, lim, other) by { match other case Ready => {} case Deferred => {} case Held => {} }
    CompleteKeepsOtherLane(d, lim, slot, other);
    CompleteLeavesOthers(d, lim, slot, other);
  }

  lemma PeekedIsHead(d: Disk, lim: Limits, lane: Lane)
    requires AllInOrder(d, lim)
    ensures var l := d.summary.Of(lane);
      && |View(d, lim.capacity).Of(lane)| == l.count
      && (l.count == 0 ==> Peeked(d, lim, lane) == None)
      && (l.count > 0 ==> Peeked(d, lim, lane) == Some(Slot(lane, l.head)) && Slot(lane, l.head) in d.slots)
  {
    LaneTotals(d, lim, lane);
    var l := d.summary.Of(lane);
    if l.count > 0 {
      CompleteHeadKeepsLane(d, lim, lane);
    }
  }

  lemma TakeObeys(d: Disk, lim: Limits, c: Command)
    requires AllInOrder(d, lim) && c.Take?
    ensures AllInOrder(Perform(d, lim, c), lim)
    ensures View(Perform(d, lim, c), lim.capacity) == Obey(View(d, lim.capacity), lim, c)
  {
    var l := d.summary.Of(c.lane);
    PeekedIsHead(d, lim, c.lane);
    if l.count > 0 {
      var slot := Slot(c.lane, l.head);
      CompleteOnLanes(d, lim, c.lane);
      CompleteKeeps(d, lim, slot);
      CompleteEffect(d, lim, slot);
    }
  }

  // A move that finds room is an enqueue in the destination and a completion in the source.
  lemma MoveIsBoth(d: Disk, lim: Limits, slot: Slot, to: Lane, size: nat, dueAt: Option<nat>, body: nat)
    requires Accurate(d, lim) && IdsDistinct(d.slots) && slot in d.slots
    requires Move(d, lim, slot, to, size, dueAt, body).result.Stored?
    ensures var between := Run(d, Enqueue(d, lim, to, Moved(d.slots[slot], size, dueAt, body), ByGeneration).ops);
      && slot in between.slots
      && Run(d, Move(d, lim, slot, to, size, dueAt, body).ops) == Run(between, CompleteOps(between, lim, slot))
      && Enqueue(d, lim, to, Moved(d.slots[slot], size, dueAt, body), ByGeneration).result.Stored?
  {
    var r := Moved(d.slots[slot], size, dueAt, body);
    var p := Enqueue(d, lim, to, r, ByGeneration);
    EnqueueEffect(d, lim, to, r, ByGeneration);
    RunConcat(d, p.ops, CompleteOps(Run(d, p.ops), lim, slot));
  }

  lemma PoppedAfterPush(d: Disk, between: Disk, lim: Limits, lane: Lane, to: Lane, r: NewRecord)
    requires Accurate(d, lim) && LanesInOrder(d, lim) && d.summary.Of(lane).count > 0
    requires Enqueue(d, lim, to, r, ByGeneration).result.Stored?
    requires between == Run(d, Enqueue(d, lim, to, r, ByGeneration).ops)
    ensures var slot := Slot(lane, d.summary.Of(lane).head);
      && slot in between.slots
      && LanesInOrder(Run(between, CompleteOps(between, lim, slot)), lim)
      && |Pushed(View(d, lim.capacity), to, r).Of(lane)| > 0
      && View(Run(between, CompleteOps(between, lim, slot)), lim.capacity) == Popped(Pushed(View(d, lim.capacity), to, r), lane)
  {
    EnqueueOnLanes(d, lim, to, r, ByGeneration);
    EnqueueKeeps(d, lim, to, r, ByGeneration);
    HeadStays(d, lim, to, r, lane);
    CompleteOnLanes(between, lim, lane);
  }

  lemma HeadIsFirst(d: Disk, lim: Limits, lane: Lane)
    requires Accurate(d, lim) && LanesInOrder(d, lim) && d.summary.Of(lane).count > 0
    ensures var slot := Slot(lane, d.summary.Of(lane).head);
      && slot in d.slots && |View(d, lim.capacity).Of(lane)| > 0
      && View(d, lim.capacity).Of(lane)[0] == Plain(d.slots[slot])
  {
    CompleteOnLanes(d, lim, lane);
  }

  lemma RelayStored(d: Disk, lim: Limits, lane: Lane, to: Lane, size: nat, dueAt: Option<nat>, body: nat)
    requires AllInOrder(d, lim) && d.summary.Of(lane).count > 0 && Slot(lane, d.summary.Of(lane).head) in d.slots
    requires Move(d, lim, Slot(lane, d.summary.Of(lane).head), to, size, dueAt, body).result.Stored?
    ensures var after := Run(d, Move(d, lim, Slot(lane, d.summary.Of(lane).head), to, size, dueAt, body).ops);
      && LanesInOrder(after, lim)
      && |View(d, lim.capacity).Of(lane)| > 0
      && View(after, lim.capacity)
         == Popped(Pushed(View(d, lim.capacity), to, Renewed(View(d, lim.capacity).Of(lane)[0], size, dueAt, body)), lane)
  {
    var slot := Slot(lane, d.summary.Of(lane).head);
    var r := Moved(d.slots[slot], size, dueAt, body);
    HeadIsFirst(d, lim, lane);
    assert r == Renewed(View(d, lim.capacity).Of(lane)[0], size, dueAt, body);
    MoveIsBoth(d, lim, slot, to, size, dueAt, body);
    PoppedAfterPush(d, Run(d, Enqueue(d, lim, to, r, ByGeneration).ops), lim, lane, to, r);
  }

  lemma HeadStays(d: Disk, lim: Limits, to: Lane, r: NewRecord, lane: Lane)
    requires Accurate(d, lim) && LanesInOrder(d, lim) && d.summary.Of(lane).count > 0
    ensures var l := Run(d, Enqueue(d, lim, to, r, ByGeneration).ops).summary.Of(lane);
      l.count > 0 && l.head == d.summary.Of(lane).head
  {
    assert InOrder(d, lim, to) && InOrder(d, lim, lane) by {
      match to case Ready => {} case Deferred => {} case Held => {}
      match lane case Ready => {} case Deferred => {} case Held => {}
    }
    if to == lane {
      EnqueueState(d, lim, lane, r, ByGeneration);
    } else {
      EnqueueKeepsOtherLane(d, lim, to, r, ByGeneration, lane);
    }
  }

  lemma RelayWithRoom(d: Disk, lim: Limits, c: Command)
    requires AllInOrder(d, lim) && c.Relay? && d.summary.Of(c.lane).count > 0 && Room(View(d, lim.capacity), lim, c.size)
    ensures AllInOrder(Perform(d, lim, c), lim)
    ensures View(Perform(d, lim, c), lim.capacity) == Obey(View(d, lim.capacity), lim, c)
  {
    PeekedIsHead(d, lim, c.lane);
    RoomAgrees(d, lim);
    RelayKeeps(d, lim, c.lane, c.to, c.size, c.dueAt, c.body);
    RelayStored(d, lim, c.lane, c.to, c.size, c.dueAt, c.body);
  }

  lemma RelayWithoutRoom(d: Disk, lim: Limits, c: Command)
    requires AllInOrder(d, lim) && c.Relay? && d.summary.Of(c.lane).count > 0 && !Room(View(d, lim.capacity), lim, c.size)
    ensures AllInOrder(Perform(d, lim, c), lim)
    ensures View(Perform(d, lim, c), lim.capacity) == Obey(View(d, lim.capacity), lim, c)
  {
    PeekedIsHead(d, lim, c.lane);
    RoomAgrees(d, lim);
    RelayKeeps(d, lim, c.lane, c.to, c.size, c.dueAt, c.body);
    RelayRefused(d, lim, Slot(c.lane, d.summary.Of(c.lane).head), c.to, c.size, c.dueAt, c.body);
  }

  lemma RelayObeys(d: Disk, lim: Limits, c: Command)
    requires AllInOrder(d, lim) && c.Relay?
    ensures AllInOrder(Perform(d, lim, c), lim)
    ensures View(Perform(d, lim, c), lim.capacity) == Obey(View(d, lim.capacity), lim, c)
  {
    if d.summary.Of(c.lane).count == 0 {
      PeekedIsHead(d, lim, c.lane);
    } else if Room(View(d, lim.capacity), lim, c.size) {
      RelayWithRoom(d, lim, c);
    } else {
      RelayWithoutRoom(d, lim, c);
    }
  }

  lemma RelayKeeps(d: Disk, lim: Limits, lane: Lane, to: Lane, size: nat, dueAt: Option<nat>, body: nat)
    requires AllInOrder(d, lim) && Slot(lane, d.summary.Of(lane).head) in d.slots
    ensures var p := Move(d, lim, Slot(lane, d.summary.Of(lane).head), to, size, dueAt, body);
      && (p.result.Stored? <==>
            size <= lim.recordMaxBytes && d.summary.TotalCount() < lim.maxRecords
            && d.summary.TotalBytes() + size <= lim.maxRecordBytes)
      && Accurate(Run(d, p.ops), lim) && IdsDistinct(Run(d, p.ops).slots)
  {
    MoveSucceedsIff(d, lim, Slot(lane, d.summary.Of(lane).head), to, size, dueAt, body);
    MoveEffect(d, lim, Slot(lane, d.summary.Of(lane).head), to, size, dueAt, body);
  }

  lemma RelayRefused(d: Disk, lim: Limits, slot: Slot, to: Lane, size: nat, dueAt: Option<nat>, body: nat)
    requires AllInOrder(d, lim) && slot in d.slots
    requires !Move(d, lim, slot, to, size, dueAt, body).result.Stored?
    ensures var after := Run(d, Move(d, lim, slot, to, size, dueAt, body).ops);
      LanesInOrder(after, lim) && View(after, lim.capacity) == View(d, lim.capacity)
  {
    MoveSucceedsIff(d, lim, slot, to, size, dueAt, body);
    EnqueueOnLanes(d, lim, to, Moved(d.slots[slot], size, dueAt, body), ByGeneration);
  }

  lemma CommandObeys(d: Disk, lim: Limits, c: Command)
    requires AllInOrder(d, lim)
    ensures AllInOrder(Perform(d, lim, c), lim)
    ensures View(Perform(d, lim, c), lim.capacity) == Obey(View(d, lim.capacity), lim, c)
  {
    match c {
      case Put(_, _) => PutObeys(d, lim, c);
      case Take(_) => TakeObeys(d, lim, c);
      case Relay(_, _, _, _, _) => RelayObeys(d, lim, c);
      case Rebuild(listing) => if Covers(d.slots, listing) { RebuildKeepsOrder(d, lim, listing); }
    }
  }

  // ---------------------------------------------------------------- whole runs

  ghost function PerformAll(d: Disk, lim: Limits, cs: seq<Command>): Disk
    requires lim.capacity > 0
  {
    if |cs| == 0 then d else Perform(PerformAll(d, lim, cs[..|cs| - 1]), lim, cs[|cs| - 1])
  }

  ghost function ObeyAll(ls: Lists, lim: Limits, cs: seq<Command>): Lists {
    if |cs| == 0 then ls else Obey(ObeyAll(ls, lim, cs[..|cs| - 1]), lim, cs[|cs| - 1])
  }

  lemma EmptyIsInOrder(lim: Limits)
    requires Sensible(lim)
    ensures AllInOrder(EMPTY_DISK, lim) && View(EMPTY_DISK, lim.capacity) == Lists([], [], [])
  {
    EmptyIsAccurate(lim);
    LaneTotals(EMPTY_DISK, lim, Ready);
    LaneTotals(EMPTY_DISK, lim, Deferred);
    LaneTotals(EMPTY_DISK, lim, Held);
  }

  // Any run of commands, wrapping around the rings however often, leaves the queue holding what
  // the same commands leave in three lists.
  lemma {:induction false} QueueIsLists(lim: Limits, cs: seq<Command>)
    requires Sensible(lim)
    ensures AllInOrder(PerformAll(EMPTY_DISK, lim, cs), lim)
    ensures View(PerformAll(EMPTY_DISK, lim, cs), lim.capacity) == ObeyAll(Lists([], [], []), lim, cs)
  {
    if |cs| == 0 {
      EmptyIsInOrder(lim);
    } else {
      QueueIsLists(lim, cs[..|cs| - 1]);
      CommandObeys(PerformAll(EMPTY_DISK, lim, cs[..|cs| - 1]), lim, cs[|cs| - 1]);
    }
  }
}
