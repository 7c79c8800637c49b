/**
  The queue over whole runs.  Calls name the item they are about by its slot and by the record
  that was once read from it, so that a late call may find the slot emptied or used again; and any
  call may be cut off after any of its steps, and so may the rebuilds of the restarts that follow.
 */
module QueueRuns {
  import opened Options
  import opened QueueModel
  import opened QueueAccounting
  import opened QueueRecovery
  import opened QueueCrashes

  // ---------------------------------------------------------------- calls

  datatype Call =
    | Put(lane: Lane, record: NewRecord)
    | Drop(slot: Slot, item: Record)
    | Shift(slot: Slot, item: Record, lane: Lane, size: nat, dueAt: Option<nat>, body: nat)
    | Rebuild

  // What a rebuild sees of the directories: where it looks for temporary files, and the records.
  datatype Listing = Listing(scan: seq<Slot>, found: seq<Slot>)

  // A call, the listing of the rebuild it may come to, how many steps it takes when it is cut off,
  // the listing of the restart that follows, and the restarts that are cut off in turn.
  datatype Event = Event(call: Call, listing: Listing, cut: Option<nat>, second: seq<Slot>, cuts: seq<Cut>)

  predicate Matches(slots: map<Slot, Record>, slot: Slot, item: Record) {
    slot in slots && slots[slot].id == item.id && slots[slot].generation == item.generation
  }

  function RebuildOps(d: Disk, capacity: nat, l: Listing): seq<Op>
    requires capacity > 0
  {
    if forall s :: s in l.found ==> s in d.slots then ReconcileOps(d, capacity, l.scan, l.found) else []
  }

  // Completing an item: its slot is emptied, or the summary rebuilt if that was done before, or
  // the call refused if the slot holds another record.
  function CompletionOps(d: Disk, lim: Limits, slot: Slot, item: Record, l: Listing): seq<Op>
    requires lim.capacity > 0
  {
    if slot !in d.slots then RebuildOps(d, lim.capacity, l)
    else if Matches(d.slots, slot, item) then CompleteOps(d, lim, slot)
    else []
  }

  // The first half of a move.
  function Forward(d: Disk, lim: Limits, c: Call): Program
    requires lim.capacity > 0 && c.Shift?
  {
    Enqueue(d, lim, c.lane, Moved(c.item, c.size, c.dueAt, c.body), ByGeneration)
  }

  predicate Goes(result: Enqueued) { result.Stored? || result.Found? }

  function OpsOf(d: Disk, lim: Limits, e: Event): seq<Op>
    requires lim.capacity > 0
  {
    match e.call
    case Put(lane, r) => Enqueue(d, lim, lane, r, ById).ops
    case Drop(slot, item) => CompletionOps(d, lim, slot, item, e.listing)
    case Shift(slot, item, _, _, _, _) =>
      var p := Forward(d, lim, e.call);
      if Goes(p.result) then p.ops + CompletionOps(Run(d, p.ops), lim, slot, item, e.listing) else p.ops
    case Rebuild => RebuildOps(d, lim.capacity, e.listing)
  }

  function Stop(d: Disk, lim: Limits, e: Event): (k: nat)
    requires lim.capacity > 0
    ensures k <= |OpsOf(d, lim, e)|
  {
    if e.cut.Some? && e.cut.value <= |OpsOf(d, lim, e)| then e.cut.value else |OpsOf(d, lim, e)|
  }

  function Stopped(d: Disk, lim: Limits, e: Event): Disk
    requires lim.capacity > 0
  {
    Run(d, OpsOf(d, lim, e)[..Stop(d, lim, e)])
  }

  // A listing names exactly the records that are there, and no temporary file is overlooked.
  ghost predicate Lists(d: Disk, l: Listing) {
    Covers(d.slots, l.found) && forall s :: s in d.temps ==> s in l.scan
  }

  ghost predicate Listed(d: Disk, lim: Limits, e: Event)
    requires lim.capacity > 0
  {
    && (match e.call
        case Put(_, _) => true
        case Drop(slot, _) => slot !in d.slots ==> Lists(d, e.listing)
        case Shift(slot, _, _, _, _, _) =>
          var p := Forward(d, lim, e.call);
          Goes(p.result) && slot !in Run(d, p.ops).slots ==> Lists(Run(d, p.ops), e.listing)
        case Rebuild => Lists(d, e.listing))
    && (e.cut.Some? ==> RestartsListed(Stopped(d, lim, e), lim.capacity, e.second, e.cuts))
  }

  // A call that is cut off is followed by restarts, which rebuild until one of them is through.
  ghost function Step(d: Disk, lim: Limits, e: Event): Disk
    requires lim.capacity > 0
  {
    var after := Stopped(d, lim, e);
    if e.cut.Some? && RestartsListed(after, lim.capacity, e.second, e.cuts) then
      Rebuilds(after, lim.capacity, e.second, e.cuts)
    else after
  }

  ghost function Steps(d: Disk, lim: Limits, events: seq<Event>): Disk
    requires lim.capacity > 0
  {
    if |events| == 0 then d else Step(Steps(d, lim, events[..|events| - 1]), lim, events[|events| - 1])
  }

  ghost predicate AllListed(d: Disk, lim: Limits, events: seq<Event>)
    requires lim.capacity > 0
  {
    |events| == 0
    || (AllListed(d, lim, events[..|events| - 1])
        && Listed(Steps(d, lim, events[..|events| - 1]), lim, events[|events| - 1]))
  }

  // ---------------------------------------------------------------- what an event may do to the records

  // The same record, or a later one under its identifier.
  predicate AtLeast(a: Record, b: Record) {
    a.id == b.id && (a.generation > b.generation || (a.generation == b.generation && a.sequence >= b.sequence))
  }

  ghost predicate Has(slots: map<Slot, Record>, r: Record) { exists t :: t in slots && AtLeast(slots[t], r) }

  ghost predicate Preserves(before: map<Slot, Record>, after: map<Slot, Record>, except: set<Slot>) {
    forall s :: s in before && s !in except ==> Has(after, before[s])
  }

  // The record an event stores, if it comes to that.
  predicate IsNew(d: Disk, c: Call, r: Record) {
    match c
    case Put(_, added) => r == Prepare(added, d.summary.nextSequence)
    case Shift(_, item, _, size, dueAt, body) => r == Prepare(Moved(item, size, dueAt, body), d.summary.nextSequence)
    case _ => false
  }

  ghost predicate Unaltered(d: Disk, c: Call, after: map<Slot, Record>) {
    forall s :: s in after ==> if s in d.slots then after[s] == d.slots[s] else IsNew(d, c, after[s])
  }

  // The slot that an event empties on purpose.
  function Dropped(d: Disk, c: Call): set<Slot> {
    if c.Drop? && Matches(d.slots, c.slot, c.item) then {c.slot} else {}
  }

  ghost predicate Change(d: Disk, c: Call, after: map<Slot, Record>) {
    Preserves(d.slots, after, Dropped(d, c)) && Unaltered(d, c, after)
  }

  lemma PreservesChains(a: map<Slot, Record>, b: map<Slot, Record>, c: map<Slot, Record>, except: set<Slot>)
    requires Preserves(a, b, except) && Preserves(b, c, {})
    ensures Preserves(a, c, except)
  {
    forall s | s in a && s !in except
      ensures Has(c, a[s])
    {
      var t :| t in b && AtLeast(b[t], a[s]);
      var u :| u in c && AtLeast(c[u], b[t]);
      assert AtLeast(c[u], a[s]);
    }
  }

  lemma MorePreserves(before: map<Slot, Record>, after: map<Slot, Record>)
    requires Within(before, after)
    ensures Preserves(before, after, {})
  {
    forall s | s in before
      ensures Has(after, before[s])
    {
      assert s in after && AtLeast(after[s], before[s]);
    }
  }

  lemma KeptPreserves(slots: map<Slot, Record>, found: seq<Slot>, after: map<Slot, Record>)
    requires Covers(slots, found) && Within(Kept(slots, found), after)
    ensures Preserves(slots, after, {})
  {
    OneSurvivorPerId(slots, found);
    var kept := Kept(slots, found);
    forall s | s in slots
      ensures Has(after, slots[s])
    {
      var t :| t in kept && kept[t].id == slots[s].id && !Outranks(slots, s, t);
      assert AtLeast(after[t], slots[s]);
    }
  }

  // A rebuild that was cut off has taken away nothing but records that others outrank.
  lemma RebuildStage(d: Disk, capacity: nat, l: Listing, k: nat)
    requires capacity > 0 && Lists(d, l) && k <= |RebuildOps(d, capacity, l)|
    ensures var cut := Run(d, RebuildOps(d, capacity, l)[..k]).slots;
      Within(cut, d.slots) && Preserves(d.slots, cut, {})
  {
    var ops, kept := RebuildOps(d, capacity, l), Kept(d.slots, l.found);
    var cut := Run(d, ops[..k]).slots;
    OneSurvivorPerId(d.slots, l.found);
    if k < |ops| {
      assert forall op :: op in ops[..k] ==> op in TempOps(d.temps, l.scan) + LoserOps(kept, l.found);
      HarmlessRun(d, kept, ops[..k]);
    } else {
      assert ops[..k] == ops;
      ReconcileRuns(d, capacity, l.scan, l.found);
    }
    KeptPreserves(d.slots, l.found, cut);
  }

  lemma CompletionStage(d: Disk, lim: Limits, slot: Slot, item: Record, l: Listing, k: nat)
    requires lim.capacity > 0 && (slot !in d.slots ==> Lists(d, l)) && k <= |CompletionOps(d, lim, slot, item, l)|
    ensures var cut := Run(d, CompletionOps(d, lim, slot, item, l)[..k]).slots;
      && Within(cut, d.slots)
      && Preserves(d.slots, cut, if Matches(d.slots, slot, item) then {slot} else {})
  {
    if slot !in d.slots {
      RebuildStage(d, lim.capacity, l, k);
    } else if Matches(d.slots, slot, item) {
      CompleteStages(d, lim, slot, k);
      MorePreserves(d.slots - {slot}, Run(d, CompleteOps(d, lim, slot)[..k]).slots);
    } else {
      MorePreserves(d.slots, d.slots);
    }
  }

  lemma ForwardStage(d: Disk, lim: Limits, lane: Lane, r: NewRecord, dedupe: Dedupe, k: nat)
    requires Accurate(d, lim) && k <= |Enqueue(d, lim, lane, r, dedupe).ops|
    ensures var cut := Run(d, Enqueue(d, lim, lane, r, dedupe).ops[..k]).slots;
      && Fits(cut, lim) && Preserves(d.slots, cut, {})
      && (forall s :: s in cut ==>
            if s in d.slots then cut[s] == d.slots[s] else cut[s] == Prepare(r, d.summary.nextSequence))
  {
    EnqueueStages(d, lim, lane, r, dedupe, k);
    EnqueueEffect(d, lim, lane, r, dedupe);
    StoredFits(d, lim, lane, r, dedupe);
    AccurateFits(d, lim);
    MorePreserves(d.slots, Run(d, Enqueue(d, lim, lane, r, dedupe).ops[..k]).slots);
  }

  // Once the record of the next generation is there, the old one may go.
  lemma NewerReplaces(before: map<Slot, Record>, between: map<Slot, Record>, after: map<Slot, Record>, slot: Slot, item: Record, u: Slot)
    requires Within(before, between) && u in between
    requires between[u].id == item.id && between[u].generation == item.generation + 1
    requires Preserves(between, after, if Matches(between, slot, item) then {slot} else {})
    ensures Preserves(before, after, {})
  {
    assert Has(after, between[u]);
    var newer :| newer in after && AtLeast(after[newer], between[u]);
    forall s | s in before
      ensures Has(after, before[s])
    {
      if s == slot && Matches(between, s, item) {
        assert AtLeast(after[newer], before[s]);
      } else {
        assert Has(after, between[s]);
      }
    }
  }

  // The first half of a move is done: the next generation is in the slot u.
  ghost predicate Forwarded(d: Disk, between: Disk, lim: Limits, c: Call, u: Slot)
    requires c.Shift?
  {
    && Fits(between.slots, lim) && Within(d.slots, between.slots)
    && (forall s :: s in between.slots && s !in d.slots ==> IsNew(d, c, between.slots[s]))
    && u in between.slots && between.slots[u].id == c.item.id && between.slots[u].generation == c.item.generation + 1
  }

  lemma FirstHalf(d: Disk, lim: Limits, c: Call)
    requires Accurate(d, lim) && c.Shift? && Goes(Forward(d, lim, c).result)
    ensures Forwarded(d, Run(d, Forward(d, lim, c).ops), lim, c, Forward(d, lim, c).result.slot)
  {
    var r := Moved(c.item, c.size, c.dueAt, c.body);
    EnqueueEffect(d, lim, c.lane, r, ByGeneration);
    StoredFits(d, lim, c.lane, r, ByGeneration);
    AccurateFits(d, lim);
  }

  // Cut off after its first half, in the completion of the old item.
  lemma SecondHalfStage(d: Disk, between: Disk, lim: Limits, e: Event, k: nat, u: Slot)
    requires lim.capacity > 0 && e.call.Shift? && Forwarded(d, between, lim, e.call, u)
    requires e.call.slot !in between.slots ==> Lists(between, e.listing)
    requires k <= |CompletionOps(between, lim, e.call.slot, e.call.item, e.listing)|
    ensures var cut := Run(between, CompletionOps(between, lim, e.call.slot, e.call.item, e.listing)[..k]).slots;
      Fits(cut, lim) && Change(d, e.call, cut)
  {
    var c := e.call;
    var cut := Run(between, CompletionOps(between, lim, c.slot, c.item, e.listing)[..k]).slots;
    CompletionStage(between, lim, c.slot, c.item, e.listing, k);
    FewerFits(between.slots, cut, lim);
    NewerReplaces(d.slots, between.slots, cut, c.slot, c.item, u);
  }

  lemma CutInTwo(d: Disk, a: seq<Op>, b: seq<Op>, k: nat)
    requires k <= |a + b|
    ensures Run(d, (a + b)[..k]) == if k <= |a| then Run(d, a[..k]) else Run(Run(d, a), b[..k - |a|])
  {
    if k <= |a| {
      assert (a + b)[..k] == a[..k];
    } else {
      assert (a + b)[..k] == a + b[..k - |a|];
      RunConcat(d, a, b[..k - |a|]);
    }
  }

  lemma FirstHalfStage(d: Disk, lim: Limits, c: Call, k: nat)
    requires Accurate(d, lim) && c.Shift? && k <= |Forward(d, lim, c).ops|
    ensures var cut := Run(d, Forward(d, lim, c).ops[..k]).slots; Fits(cut, lim) && Change(d, c, cut)
  {
    ForwardStage(d, lim, c.lane, Moved(c.item, c.size, c.dueAt, c.body), ByGeneration, k);
  }

  lemma ShiftStage(d: Disk, lim: Limits, e: Event, k: nat)
    requires Accurate(d, lim) && Listed(d, lim, e) && e.call.Shift? && k <= |OpsOf(d, lim, e)|
    ensures var cut := Run(d, OpsOf(d, lim, e)[..k]).slots; Fits(cut, lim) && Change(d, e.call, cut)
  {
    var c := e.call;
    var p := Forward(d, lim, c);
    if !Goes(p.result) {
      FirstHalfStage(d, lim, c, k);
    } else {
      var between := Run(d, p.ops);
      CutInTwo(d, p.ops, CompletionOps(between, lim, c.slot, c.item, e.listing), k);
      if k <= |p.ops| {
        FirstHalfStage(d, lim, c, k);
      } else {
        FirstHalf(d, lim, c);
        SecondHalfStage(d, between, lim, e, k - |p.ops|, p.result.slot);
      }
    }
  }

  // Wherever a call is cut off, what is left fits, and nothing is lost but what it completes.
  lemma Stage(d: Disk, lim: Limits, e: Event, k: nat)
    requires Accurate(d, lim) && Listed(d, lim, e) && k <= |OpsOf(d, lim, e)|
    ensures var cut := Run(d, OpsOf(d, lim, e)[..k]).slots; Fits(cut, lim) && Change(d, e.call, cut)
  {
    AccurateFits(d, lim);
    match e.call {
      case Put(lane, r) => ForwardStage(d, lim, lane, r, ById, k);
      case Drop(slot, item) =>
        CompletionStage(d, lim, slot, item, e.listing, k);
        FewerFits(d.slots, Run(d, OpsOf(d, lim, e)[..k]).slots, lim);
      case Shift(_, _, _, _, _, _) => ShiftStage(d, lim, e, k);
      case Rebuild =>
        RebuildStage(d, lim.capacity, e.listing, k);
        FewerFits(d.slots, Run(d, OpsOf(d, lim, e)[..k]).slots, lim);
    }
  }

  // ---------------------------------------------------------------- the summary

  lemma FitsRebuilds(d: Disk, lim: Limits, found: seq<Slot>)
    requires Fits(d.slots, lim) && Covers(d.slots, found)
    ensures Accurate(Reconciled(d, lim.capacity, found), lim) && IdsDistinct(Reconciled(d, lim.capacity, found).slots)
    ensures Within(Reconciled(d, lim.capacity, found).slots, d.slots)
    ensures Preserves(d.slots, Reconciled(d, lim.capacity, found).slots, {})
  {
    RebuiltIsAccurate(d, lim, found);
    OneSurvivorPerId(d.slots, found);
    KeptPreserves(d.slots, found, Kept(d.slots, found));
  }

  // A completed item: its slot emptied, the rebuilt disk, or nothing changed.
  lemma CompletionEffect(d: Disk, lim: Limits, slot: Slot, item: Record, l: Listing)
    requires Accurate(d, lim) && (slot !in d.slots ==> Lists(d, l))
    ensures var after := Run(d, CompletionOps(d, lim, slot, item, l));
      && Accurate(after, lim)
      && (slot !in d.slots ==> after == Reconciled(d, lim.capacity, l.found))
      && (Matches(d.slots, slot, item) ==> after.slots == d.slots - {slot})
      && (slot in d.slots && !Matches(d.slots, slot, item) ==> after == d)
  {
    if slot !in d.slots {
      AccurateFits(d, lim);
      FitsRebuilds(d, lim, l.found);
      ReconcileRuns(d, lim.capacity, l.scan, l.found);
    } else if Matches(d.slots, slot, item) {
      CompleteKeeps(d, lim, slot);
      CompleteEffect(d, lim, slot);
    }
  }

  lemma WholeIsAccurate(d: Disk, lim: Limits, e: Event)
    requires Accurate(d, lim) && Listed(d, lim, e)
    ensures Accurate(Run(d, OpsOf(d, lim, e)), lim)
  {
    match e.call {
      case Put(lane, r) => EnqueueKeeps(d, lim, lane, r, ById);
      case Drop(slot, item) => CompletionEffect(d, lim, slot, item, e.listing);
      case Shift(slot, item, lane, size, dueAt, body) =>
        var p := Forward(d, lim, e.call);
        EnqueueKeeps(d, lim, lane, Moved(item, size, dueAt, body), ByGeneration);
        if Goes(p.result) {
          CompletionEffect(Run(d, p.ops), lim, slot, item, e.listing);
          RunConcat(d, p.ops, CompletionOps(Run(d, p.ops), lim, slot, item, e.listing));
        }
      case Rebuild =>
        AccurateFits(d, lim);
        FitsRebuilds(d, lim, e.listing.found);
        ReconcileRuns(d, lim.capacity, e.listing.scan, e.listing.found);
    }
  }

  // However many restarts it takes, a cut-off call is followed by one rebuild of what it left.
  lemma CutIsRebuilt(d: Disk, lim: Limits, e: Event)
    requires Accurate(d, lim) && Listed(d, lim, e) && e.cut.Some?
    ensures Step(d, lim, e) == Reconciled(Stopped(d, lim, e), lim.capacity, e.second)
  {
    Stage(d, lim, e, Stop(d, lim, e));
    DistinctSequencesDoNotTie(Stopped(d, lim, e).slots);
    RebuildsAgree(Stopped(d, lim, e), lim.capacity, e.second, e.cuts);
  }

  lemma StepKeeps(d: Disk, lim: Limits, e: Event)
    requires Accurate(d, lim) && Listed(d, lim, e)
    ensures Accurate(Step(d, lim, e), lim) && Change(d, e.call, Step(d, lim, e).slots)
  {
    var cut := Stopped(d, lim, e);
    Stage(d, lim, e, Stop(d, lim, e));
    if e.cut.Some? {
      CutIsRebuilt(d, lim, e);
      FitsRebuilds(cut, lim, e.second);
      PreservesChains(d.slots, cut.slots, Step(d, lim, e).slots, Dropped(d, e.call));
    } else {
      assert OpsOf(d, lim, e)[..|OpsOf(d, lim, e)|] == OpsOf(d, lim, e);
      WholeIsAccurate(d, lim, e);
    }
  }

  // Whatever calls are made, about whatever items, and wherever they are cut off, the summary
  // tells the truth after every event.
  lemma {:induction false} RunsAreAccurate(d: Disk, lim: Limits, events: seq<Event>)
    requires Accurate(d, lim) && AllListed(d, lim, events)
    ensures Accurate(Steps(d, lim, events), lim)
  {
    if |events| > 0 {
      RunsAreAccurate(d, lim, events[..|events| - 1]);
      StepKeeps(Steps(d, lim, events[..|events| - 1]), lim, events[|events| - 1]);
    }
  }

  // ---------------------------------------------------------------- nothing is lost

  // The event gives up a record with this identifier on purpose.
  predicate Drops(d: Disk, c: Call, id: nat) { c.Drop? && Matches(d.slots, c.slot, c.item) && c.item.id == id }

  ghost predicate NeverDropped(d: Disk, lim: Limits, events: seq<Event>, id: nat)
    requires lim.capacity > 0
  {
    |events| == 0
    || (NeverDropped(d, lim, events[..|events| - 1], id)
        && !Drops(Steps(d, lim, events[..|events| - 1]), events[|events| - 1].call, id))
  }

  lemma StepHas(d: Disk, lim: Limits, e: Event, r: Record)
    requires Accurate(d, lim) && Listed(d, lim, e) && !Drops(d, e.call, r.id) && Has(d.slots, r)
    ensures Has(Step(d, lim, e).slots, r)
  {
    StepKeeps(d, lim, e);
    var after := Step(d, lim, e).slots;
    var s :| s in d.slots && AtLeast(d.slots[s], r);
    var t :| t in after && AtLeast(after[t], d.slots[s]);
    assert AtLeast(after[t], r);
  }

  // A record, once stored, is there, or a later one under its identifier, until that is completed:
  // over any run, of whatever calls and crashes.
  lemma {:induction false} NothingIsLost(d: Disk, lim: Limits, events: seq<Event>, r: Record)
    requires Accurate(d, lim) && AllListed(d, lim, events) && NeverDropped(d, lim, events, r.id) && Has(d.slots, r)
    ensures Has(Steps(d, lim, events).slots, r)
  {
    if |events| > 0 {
      NothingIsLost(d, lim, events[..|events| - 1], r);
      RunsAreAccurate(d, lim, events[..|events| - 1]);
      StepHas(Steps(d, lim, events[..|events| - 1]), lim, events[|events| - 1], r);
    }
  }

  // ---------------------------------------------------------------- one record per identifier

  ghost predicate Sound(d: Disk, lim: Limits) { Accurate(d, lim) && IdsDistinct(d.slots) }

  predicate HasRoom(d: Disk, lim: Limits, size: nat) {
    && size <= lim.recordMaxBytes && d.summary.TotalCount() < lim.maxRecords
    && d.summary.TotalBytes() + size <= lim.maxRecordBytes
  }

  // The slot that a record enqueued in the lane would be linked into.
  function FirstFree(d: Disk, lim: Limits, lane: Lane): Option<nat>
    requires lim.capacity > 0
  {
    ProbeFrom(d, lim.capacity, lane, d.summary.Of(lane).write, lim.capacity).cursor
  }

  // A move of an item whose slot holds another record, or would be filled by the move itself,
  // while a copy of the item is elsewhere: the new record is stored, and the old one not found.
  predicate Duplicates(d: Disk, lim: Limits, e: Event)
    requires lim.capacity > 0
  {
    && e.cut.None? && e.call.Shift? && HasRoom(d, lim, e.call.size)
    && var c := e.call;
    && !Matches(d.slots, c.slot, c.item)
    && (c.slot in d.slots || (c.slot.lane == c.lane && FirstFree(d, lim, c.lane) == Some(c.slot.cursor)))
    && (exists s :: s in d.slots && d.slots[s].id == c.item.id)
    && (forall s :: s in d.slots && s.lane == c.lane && d.slots[s].id == c.item.id ==>
          d.slots[s].generation != c.item.generation + 1)
  }

  // What the first half of a move does, in these terms.
  lemma ForwardEffect(d: Disk, lim: Limits, c: Call)
    requires Accurate(d, lim) && c.Shift?
    ensures var p := Forward(d, lim, c);
      var found := exists s :: s in d.slots && s.lane == c.lane && d.slots[s].id == c.item.id
                     && d.slots[s].generation == c.item.generation + 1;
      && (p.result.Found? <==> found)
      && (p.result.Stored? <==> !found && HasRoom(d, lim, c.size))
      && (p.result.Stored? ==>
            && p.result.slot !in d.slots && p.result.slot.lane == c.lane
            && FirstFree(d, lim, c.lane) == Some(p.result.slot.cursor)
            && p.result.record.id == c.item.id && p.result.record.generation == c.item.generation + 1
            && Run(d, p.ops).slots == d.slots[p.result.slot := p.result.record])
      && (!p.result.Stored? ==> Run(d, p.ops).slots == d.slots)
  {
    var r := Moved(c.item, c.size, c.dueAt, c.body);
    EnqueueEffect(d, lim, c.lane, r, ByGeneration);
    FreeSlotExists(d, lim, c.lane, r, ByGeneration);
    if s :| s in d.slots && s.lane == c.lane && d.slots[s].id == c.item.id
            && d.slots[s].generation == c.item.generation + 1 {
      assert s == Slot(c.lane, s.cursor);
    }
  }

  // A record of the next generation is there already: nothing is stored, so nothing is doubled.
  lemma FoundIsUnique(d: Disk, lim: Limits, e: Event)
    requires Sound(d, lim) && Listed(d, lim, e) && e.call.Shift? && !Forward(d, lim, e.call).result.Stored?
    ensures IdsDistinct(Run(d, OpsOf(d, lim, e)).slots)
  {
    var c := e.call;
    var p := Forward(d, lim, c);
    ForwardEffect(d, lim, c);
    if p.result.Found? {
      assert p.ops == [] && p.ops + CompletionOps(d, lim, c.slot, c.item, e.listing) == CompletionOps(d, lim, c.slot, c.item, e.listing);
      CompletionIsUnique(d, lim, c.slot, c.item, e.listing);
    }
  }

  lemma CompletionIsUnique(d: Disk, lim: Limits, slot: Slot, item: Record, l: Listing)
    requires Sound(d, lim) && (slot !in d.slots ==> Lists(d, l))
    ensures IdsDistinct(Run(d, CompletionOps(d, lim, slot, item, l)).slots)
  {
    CompletionEffect(d, lim, slot, item, l);
    if slot !in d.slots {
      OneSurvivorPerId(d.slots, l.found);
    }
  }

  // What completing the old item makes of the slots with the new record in.
  lemma StoredIsUniqueIff(d: Disk, between: Disk, lim: Limits, slot: Slot, item: Record, l: Listing, added: Slot, r: Record)
    requires IdsDistinct(d.slots) && Accurate(between, lim) && (slot !in between.slots ==> Lists(between, l))
    requires added !in d.slots && between.slots == d.slots[added := r]
    requires r.id == item.id && r.generation == item.generation + 1
    ensures IdsDistinct(Run(between, CompletionOps(between, lim, slot, item, l)).slots)
       <==> Matches(d.slots, slot, item) || (slot !in d.slots && slot != added)
            || forall s :: s in d.slots ==> d.slots[s].id != item.id
  {
    CompletionEffect(between, lim, slot, item, l);
    if slot !in between.slots {
      OneSurvivorPerId(between.slots, l.found);
    } else if !Matches(between.slots, slot, item) {
      if s :| s in d.slots && d.slots[s].id == item.id {
        assert between.slots[s].id == between.slots[added].id;
      }
    }
  }

  lemma ShiftDuplicatesIff(d: Disk, lim: Limits, e: Event)
    requires Sound(d, lim) && Listed(d, lim, e) && e.call.Shift? && e.cut.None?
    ensures IdsDistinct(Run(d, OpsOf(d, lim, e)).slots) <==> !Duplicates(d, lim, e)
  {
    var c := e.call;
    var p := Forward(d, lim, c);
    ForwardEffect(d, lim, c);
    if !p.result.Stored? {
      FoundIsUnique(d, lim, e);
    } else {
      var between := Run(d, p.ops);
      EnqueueKeeps(d, lim, c.lane, Moved(c.item, c.size, c.dueAt, c.body), ByGeneration);
      RunConcat(d, p.ops, CompletionOps(between, lim, c.slot, c.item, e.listing));
      StoredIsUniqueIff(d, between, lim, c.slot, c.item, e.listing, p.result.slot, p.result.record);
    }
  }

  // An event leaves one record per identifier, exactly unless it is such a move.
  lemma StepDuplicatesIff(d: Disk, lim: Limits, e: Event)
    requires Sound(d, lim) && Listed(d, lim, e)
    ensures IdsDistinct(Step(d, lim, e).slots) <==> !Duplicates(d, lim, e)
  {
    if e.cut.Some? {
      RebuildRestores(d, lim, e);
    } else {
      var ops := OpsOf(d, lim, e);
      assert ops[..|ops|] == ops;
      match e.call {
        case Put(lane, r) =>
          EnqueueEffect(d, lim, lane, r, ById);
          PutIsUnique(d, lim, lane, r);
        case Drop(slot, item) =>
          CompletionEffect(d, lim, slot, item, e.listing);
          if slot !in d.slots {
            RebuildRestores(d, lim, e);
          }
        case Shift(_, _, _, _, _, _) => ShiftDuplicatesIff(d, lim, e);
        case Rebuild => RebuildRestores(d, lim, e);
      }
    }
  }

  lemma PutIsUnique(d: Disk, lim: Limits, lane: Lane, r: NewRecord)
    requires Sound(d, lim)
    ensures var p := Enqueue(d, lim, lane, r, ById);
      p.result.Stored? ==> IdsDistinct(d.slots[p.result.slot := p.result.record])
  {
    StoredFits(d, lim, lane, r, ById);
    if Enqueue(d, lim, lane, r, ById).result.Stored? {
      FindIdMisses(d.slots, lim.capacity, r.id);
    }
  }

  // The event comes to a rebuild: by itself, at a restart, or on finding the item's slot empty.
  predicate ComesToRebuild(d: Disk, lim: Limits, e: Event)
    requires lim.capacity > 0
  {
    || e.cut.Some? || e.call.Rebuild? || (e.call.Drop? && e.call.slot !in d.slots)
    || (e.call.Shift? && Goes(Forward(d, lim, e.call).result)
        && e.call.slot !in Run(d, Forward(d, lim, e.call).ops).slots)
  }

  // After the next rebuild every identifier has one record again.
  lemma RebuildRestores(d: Disk, lim: Limits, e: Event)
    requires Accurate(d, lim) && Listed(d, lim, e) && ComesToRebuild(d, lim, e)
    ensures Sound(Step(d, lim, e), lim)
  {
    StepKeeps(d, lim, e);
    var ops := OpsOf(d, lim, e);
    assert ops[..|ops|] == ops;
    if e.cut.Some? {
      CutIsRebuilt(d, lim, e);
      OneSurvivorPerId(Stopped(d, lim, e).slots, e.second);
    } else if e.call.Shift? {
      var p := Forward(d, lim, e.call);
      var between := Run(d, p.ops);
      EnqueueKeeps(d, lim, e.call.lane, Moved(e.call.item, e.call.size, e.call.dueAt, e.call.body), ByGeneration);
      CompletionEffect(between, lim, e.call.slot, e.call.item, e.listing);
      RunConcat(d, p.ops, CompletionOps(between, lim, e.call.slot, e.call.item, e.listing));
      OneSurvivorPerId(between.slots, e.listing.found);
    } else {
      ReconcileRuns(d, lim.capacity, e.listing.scan, e.listing.found);
      OneSurvivorPerId(d.slots, e.listing.found);
    }
  }

  ghost predicate AlwaysUnique(d: Disk, lim: Limits, events: seq<Event>)
    requires lim.capacity > 0
  {
    IdsDistinct(Steps(d, lim, events).slots) && (|events| > 0 ==> AlwaysUnique(d, lim, events[..|events| - 1]))
  }

  ghost predicate NeverDuplicates(d: Disk, lim: Limits, events: seq<Event>)
    requires lim.capacity > 0
  {
    |events| > 0 ==>
      && NeverDuplicates(d, lim, events[..|events| - 1])
      && !Duplicates(Steps(d, lim, events[..|events| - 1]), lim, events[|events| - 1])
  }

  // Identifiers stay unique through a run exactly when none of its events is such a move.
  lemma {:induction false} UniqueIff(d: Disk, lim: Limits, events: seq<Event>)
    requires Sound(d, lim) && AllListed(d, lim, events)
    ensures AlwaysUnique(d, lim, events) <==> NeverDuplicates(d, lim, events)
  {
    if |events| > 0 {
      var before := events[..|events| - 1];
      UniqueIff(d, lim, before);
      if AlwaysUnique(d, lim, before) {
        RunsAreAccurate(d, lim, before);
        StepDuplicatesIff(Steps(d, lim, before), lim, events[|events| - 1]);
      }
    }
  }
}
