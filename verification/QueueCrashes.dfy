/**
  What a call that is cut off after any of its steps leaves in the slots, and what the restart, or
  a row of restarts that are cut off in turn, makes of it.
 */
module QueueCrashes {
  import opened Options
  import opened QueueModel
  import opened QueueAccounting
  import opened QueueRecovery

  // ---------------------------------------------------------------- the slots along a program

  predicate Quiet(op: Op) { op.CreateTemp? || op.RemoveTemp? || op.WriteSummary? }

  ghost predicate AllQuiet(ops: seq<Op>) { forall op :: op in ops ==> Quiet(op) }

  lemma {:induction false} QuietRun(d: Disk, ops: seq<Op>)
    requires AllQuiet(ops)
    ensures Run(d, ops).slots == d.slots
  {
    if |ops| > 0 {
      QuietRun(d, ops[..|ops| - 1]);
      assert ops[|ops| - 1] in ops;
    }
  }

  lemma {:induction false} ProbeIsQuiet(d: Disk, capacity: nat, lane: Lane, cursor: nat, left: nat)
    requires capacity > 0
    ensures AllQuiet(ProbeFrom(d, capacity, lane, cursor, left).ops)
    decreases left
  {
    if left > 0 && Unusable(d, Slot(lane, cursor)) {
      ProbeIsQuiet(d, capacity, lane, Next(cursor, capacity), left - 1);
    }
  }

  // Quiet steps, one step that matters, quiet steps: the slots change at that one step.
  lemma OneLoudStep(d: Disk, before: seq<Op>, loud: Op, after: seq<Op>, k: nat)
    requires AllQuiet(before) && AllQuiet(after) && k <= |before| + 1 + |after|
    ensures Run(d, (before + [loud] + after)[..k]).slots
      == if k <= |before| then d.slots else Apply(Run(d, before), loud).slots
  {
    var ops := before + [loud] + after;
    if k <= |before| {
      assert ops[..k] == before[..k];
      QuietRun(d, before[..k]);
    } else {
      var tail := after[..k - |before| - 1];
      assert ops[..k] == (before + [loud]) + tail;
      RunConcat(d, before + [loud], tail);
      assert (before + [loud])[..|before|] == before;
      QuietRun(Run(d, before + [loud]), tail);
    }
  }

  // The slots after an enqueue that was cut off: those before, or those with the whole record.
  lemma EnqueueStages(d: Disk, lim: Limits, lane: Lane, r: NewRecord, dedupe: Dedupe, k: nat)
    requires lim.capacity > 0 && k <= |Enqueue(d, lim, lane, r, dedupe).ops|
    ensures var p := Enqueue(d, lim, lane, r, dedupe);
      || Run(d, p.ops[..k]).slots == d.slots
      || (p.result.Stored? && Run(d, p.ops[..k]).slots == d.slots[p.result.slot := p.result.record])
  {
    var p := Enqueue(d, lim, lane, r, dedupe);
    var probe := ProbeFrom(d, lim.capacity, lane, d.summary.Of(lane).write, lim.capacity);
    ProbeIsQuiet(d, lim.capacity, lane, d.summary.Of(lane).write, lim.capacity);
    if p.result.Stored? {
      var link := Op.Link(p.result.slot, p.result.record);
      var after := p.ops[|probe.ops| + 1..];
      assert p.ops == probe.ops + [link] + after;
      QuietRun(d, probe.ops);
      OneLoudStep(d, probe.ops, link, after, k);
    } else {
      assert AllQuiet(p.ops);
      QuietRun(d, p.ops[..k]);
    }
  }

  lemma CompleteStages(d: Disk, lim: Limits, slot: Slot, k: nat)
    requires lim.capacity > 0 && slot in d.slots && k <= |CompleteOps(d, lim, slot)|
    ensures Run(d, CompleteOps(d, lim, slot)[..k]).slots == if k == 0 then d.slots else d.slots - {slot}
  {
    var ops := CompleteOps(d, lim, slot);
    assert ops == [] + [ops[0]] + [ops[1]];
    OneLoudStep(d, [], ops[0], [ops[1]], k);
  }

  // A move that was cut off: the old record alone, both, or the new one alone.
  lemma MoveStages(d: Disk, lim: Limits, slot: Slot, lane: Lane, size: nat, dueAt: Option<nat>, body: nat, k: nat)
    requires Accurate(d, lim) && IdsDistinct(d.slots) && slot in d.slots
    requires k <= |Move(d, lim, slot, lane, size, dueAt, body).ops|
    ensures var p := Move(d, lim, slot, lane, size, dueAt, body);
      var now := Run(d, p.ops[..k]).slots;
      || now == d.slots
      || (p.result.Stored? && now == d.slots[p.result.slot := p.result.record])
      || (p.result.Stored? && now == d.slots[p.result.slot := p.result.record] - {slot})
  {
    var r := Moved(d.slots[slot], size, dueAt, body);
    var p := Move(d, lim, slot, lane, size, dueAt, body);
    var enqueue := Enqueue(d, lim, lane, r, ByGeneration);
    MoveSucceedsIff(d, lim, slot, lane, size, dueAt, body);
    FreeSlotExists(d, lim, lane, r, ByGeneration);
    if k <= |enqueue.ops| {
      assert p.ops[..k] == enqueue.ops[..k];
      EnqueueStages(d, lim, lane, r, ByGeneration, k);
    } else {
      var between := Run(d, enqueue.ops);
      EnqueueEffect(d, lim, lane, r, ByGeneration);
      var complete := CompleteOps(between, lim, slot);
      assert p.ops[..k] == enqueue.ops + complete[..k - |enqueue.ops|];
      RunConcat(d, enqueue.ops, complete[..k - |enqueue.ops|]);
      CompleteStages(between, lim, slot, k - |enqueue.ops|);
    }
  }

  // ---------------------------------------------------------------- slots that fit

  // Slots a rebuild accepts.
  ghost predicate Fits(slots: map<Slot, Record>, lim: Limits) {
    && Sensible(lim) && Addressed(slots, lim.capacity) && SequencesDistinct(slots)
    && TotalRecords(slots, lim.capacity) <= lim.maxRecords && TotalSize(slots, lim.capacity) <= lim.maxRecordBytes
  }

  lemma AccurateFits(d: Disk, lim: Limits)
    requires Accurate(d, lim)
    ensures Fits(d.slots, lim)
  {
  }

  lemma FewerFits(slots: map<Slot, Record>, fewer: map<Slot, Record>, lim: Limits)
    requires Fits(slots, lim) && Within(fewer, slots)
    ensures Fits(fewer, lim)
  {
    FewerSlotsCountLess(slots, fewer, Ready, lim.capacity);
    FewerSlotsCountLess(slots, fewer, Deferred, lim.capacity);
    FewerSlotsCountLess(slots, fewer, Held, lim.capacity);
  }

  lemma StoredFits(d: Disk, lim: Limits, lane: Lane, r: NewRecord, dedupe: Dedupe)
    requires Accurate(d, lim)
    ensures var p := Enqueue(d, lim, lane, r, dedupe);
      p.result.Stored? ==> p.result.slot !in d.slots && Fits(d.slots[p.result.slot := p.result.record], lim)
  {
    var p := Enqueue(d, lim, lane, r, dedupe);
    FreeSlotExists(d, lim, lane, r, dedupe);
    EnqueueKeeps(d, lim, lane, r, dedupe);
    EnqueueEffect(d, lim, lane, r, dedupe);
    if p.result.Stored? {
      AccurateFits(Run(d, p.ops), lim);
    }
  }

  lemma DistinctSequencesDoNotTie(slots: map<Slot, Record>)
    requires SequencesDistinct(slots)
    ensures NoTies(slots)
  {
  }

  // ---------------------------------------------------------------- the crash of a move

  // Both the old and the new record are there: the new one, a generation on, survives.
  lemma NewerSurvives(slots: map<Slot, Record>, slot: Slot, dst: Slot, record: Record, observed: seq<Slot>)
    requires IdsDistinct(slots) && slot in slots && dst !in slots
    requires record.id == slots[slot].id && record.generation > slots[slot].generation
    requires Covers(slots[dst := record], observed)
    ensures Kept(slots[dst := record], observed) == slots[dst := record] - {slot}
  {
    var both := slots[dst := record];
    OneSurvivorPerId(both, observed);
    var kept := Kept(both, observed);
    assert slot !in kept by {
      var t :| t in kept && kept[t].id == both[dst].id && !Outranks(both, dst, t);
      assert t == dst || t == slot;
    }
    forall s | s in both && s != slot
      ensures s in kept
    {
      var t :| t in kept && kept[t].id == both[s].id;
      assert t == s;
    }
  }

  // Cut a move off after any step and rebuild: exactly one record with the identifier remains,
  // the old one where it was or the new one, a generation on, in its new slot; every other
  // record stays where it was; and the summary tells the truth.
  lemma MoveCrash(d: Disk, lim: Limits, slot: Slot, lane: Lane, size: nat, dueAt: Option<nat>, body: nat,
                  k: nat, observed: seq<Slot>)
    requires Accurate(d, lim) && IdsDistinct(d.slots) && slot in d.slots
    requires k <= |Move(d, lim, slot, lane, size, dueAt, body).ops|
    requires Covers(Run(d, Move(d, lim, slot, lane, size, dueAt, body).ops[..k]).slots, observed)
    ensures var p := Move(d, lim, slot, lane, size, dueAt, body);
      var after := Reconciled(Run(d, p.ops[..k]), lim.capacity, observed);
      && Accurate(after, lim) && IdsDistinct(after.slots)
      && (|| after.slots == d.slots
          || (&& p.result.Stored? && p.result.slot !in d.slots && p.result.slot.lane == lane
              && p.result.record == Prepare(Moved(d.slots[slot], size, dueAt, body), d.summary.nextSequence)
              && after.slots == d.slots[p.result.slot := p.result.record] - {slot}))
  {
    var r := Moved(d.slots[slot], size, dueAt, body);
    var p := Move(d, lim, slot, lane, size, dueAt, body);
    var cut := Run(d, p.ops[..k]);
    MoveStages(d, lim, slot, lane, size, dueAt, body, k);
    AccurateFits(d, lim);
    StoredFits(d, lim, lane, r, ByGeneration);
    MoveEffect(d, lim, slot, lane, size, dueAt, body);
    if cut.slots == d.slots {
      DistinctAreAllKept(d.slots, observed);
    } else {
      var both := d.slots[p.result.slot := p.result.record];
      if cut.slots == both {
        NewerSurvives(d.slots, slot, p.result.slot, p.result.record, observed);
      } else {
        FewerFits(both, both - {slot}, lim);
        DistinctAreAllKept(both - {slot}, observed);
      }
    }
    RebuiltIsAccurate(cut, lim, observed);
  }

  // ---------------------------------------------------------------- restarts that are cut off

  // A rebuild is cut off as well: how it scans for temporary files, how many steps it takes, and
  // what the next restart lists.
  datatype Cut = Cut(scan: seq<Slot>, steps: nat, next: seq<Slot>)

  // What a rebuild that is cut off leaves behind.
  function CutRebuild(d: Disk, capacity: nat, listing: seq<Slot>, c: Cut): Disk
    requires capacity > 0 && forall s :: s in listing ==> s in d.slots
  {
    var ops := ReconcileOps(d, capacity, c.scan, listing);
    Run(d, if c.steps <= |ops| then ops[..c.steps] else ops)
  }

  ghost predicate RestartsListed(d: Disk, capacity: nat, listing: seq<Slot>, cuts: seq<Cut>)
    requires capacity > 0
    decreases |cuts|
  {
    && Covers(d.slots, listing)
    && (|cuts| > 0 ==>
          && (forall s :: s in d.temps ==> s in cuts[0].scan)
          && RestartsListed(CutRebuild(d, capacity, listing, cuts[0]), capacity, cuts[0].next, cuts[1..]))
  }

  // Rebuild after rebuild, each but the last cut off.
  ghost function Rebuilds(d: Disk, capacity: nat, listing: seq<Slot>, cuts: seq<Cut>): Disk
    requires capacity > 0 && RestartsListed(d, capacity, listing, cuts)
    decreases |cuts|
  {
    if |cuts| == 0 then Reconciled(d, capacity, listing)
    else Rebuilds(CutRebuild(d, capacity, listing, cuts[0]), capacity, cuts[0].next, cuts[1..])
  }

  lemma CutRebuildIsWithin(d: Disk, capacity: nat, listing: seq<Slot>, c: Cut)
    requires capacity > 0 && Covers(d.slots, listing) && (forall s :: s in d.temps ==> s in c.scan)
    ensures Within(CutRebuild(d, capacity, listing, c).slots, d.slots)
  {
    var ops := ReconcileOps(d, capacity, c.scan, listing);
    if c.steps < |ops| {
      assert forall op :: op in ops[..c.steps] ==> op in TempOps(d.temps, c.scan) + LoserOps(Kept(d.slots, listing), listing);
      HarmlessRun(d, Kept(d.slots, listing), ops[..c.steps]);
    } else {
      ReconcileRuns(d, capacity, c.scan, listing);
      assert ops[..|ops|] == ops;
    }
  }

  // However often the rebuild is cut off, the one that is through ends where the first would have.
  lemma {:induction false} RebuildsAgree(d: Disk, capacity: nat, listing: seq<Slot>, cuts: seq<Cut>)
    requires capacity > 0 && NoTies(d.slots) && RestartsListed(d, capacity, listing, cuts)
    ensures Rebuilds(d, capacity, listing, cuts) == Reconciled(d, capacity, listing)
    decreases |cuts|
  {
    if |cuts| > 0 {
      var c := cuts[0];
      var ops := ReconcileOps(d, capacity, c.scan, listing);
      var next := CutRebuild(d, capacity, listing, c);
      CutRebuildIsWithin(d, capacity, listing, c);
      FewerHasNoTies(d.slots, next.slots);
      RebuildsAgree(next, capacity, c.next, cuts[1..]);
      assert ops[..|ops|] == ops;
      ReconcileRestarts(d, capacity, c.scan, listing, if c.steps <= |ops| then c.steps else |ops|, c.next);
    }
  }
}
