/**
  Rebuilding the queue from its slots, and why a crash at any step of a move, or of the rebuild
  itself, loses nothing and duplicates nothing.
 */
module QueueRecovery {
  import opened Options
  import opened QueueModel
  import opened QueueAccounting

  function Priority(lane: Lane): nat {
    match lane case Ready => 0 case Deferred => 1 case Held => 2
  }

  // Generation first, then sequence, then lane.
  predicate Outranks(slots: map<Slot, Record>, s: Slot, t: Slot)
    requires s in slots && t in slots
  {
    var a, b := slots[s], slots[t];
    || a.generation > b.generation
    || (a.generation == b.generation && a.sequence > b.sequence)
    || (a.generation == b.generation && a.sequence == b.sequence && Priority(s.lane) > Priority(t.lane))
  }

  // The winner of every identifier after looking at the observed slots in order.
  function Winners(slots: map<Slot, Record>, observed: seq<Slot>): (w: map<nat, Slot>)
    requires forall s :: s in observed ==> s in slots
    ensures forall id :: id in w ==> w[id] in observed && slots[w[id]].id == id
  {
    if |observed| == 0 then map[]
    else
      var n := |observed| - 1;
      var rest := Winners(slots, observed[..n]);
      var s := observed[n];
      var id := slots[s].id;
      if id !in rest || Outranks(slots, s, rest[id]) then rest[id := s] else rest
  }

  ghost predicate Covers(slots: map<Slot, Record>, observed: seq<Slot>) {
    forall s :: s in slots <==> s in observed
  }

  function Kept(slots: map<Slot, Record>, observed: seq<Slot>): map<Slot, Record>
    requires forall s :: s in observed ==> s in slots
  {
    var w := Winners(slots, observed);
    map s | s in slots && slots[s].id in w && w[slots[s].id] == s :: slots[s]
  }

  function RebuiltLane(slots: map<Slot, Record>, lane: Lane, capacity: nat): LaneState
    requires capacity > 0
  {
    var first := FirstCursor(slots, lane, capacity);
    var last := LastCursor(slots, lane, capacity);
    LaneState(if first.Some? then first.value else 0, if last.Some? then Next(last.value, capacity) else 0,
              CountUpTo(slots, lane, capacity), BytesUpTo(slots, lane, capacity))
  }

  function NextAfter(slots: map<Slot, Record>, lane: Lane, capacity: nat): nat {
    var last := LastCursor(slots, lane, capacity);
    if last.Some? then slots[Slot(lane, last.value)].sequence + 1 else 0
  }

  function Max(a: nat, b: nat): nat { if a < b then b else a }

  function Rebuilt(slots: map<Slot, Record>, capacity: nat, capacityEvents: nat): Summary
    requires capacity > 0
  {
    Summary(Max(NextAfter(slots, Ready, capacity), Max(NextAfter(slots, Deferred, capacity), NextAfter(slots, Held, capacity))),
            capacityEvents, RebuiltLane(slots, Ready, capacity), RebuiltLane(slots, Deferred, capacity),
            RebuiltLane(slots, Held, capacity))
  }

  function Reconciled(d: Disk, capacity: nat, observed: seq<Slot>): Disk
    requires capacity > 0 && forall s :: s in observed ==> s in d.slots
  {
    var kept := Kept(d.slots, observed);
    Disk(kept, {}, Rebuilt(kept, capacity, d.summary.capacityEvents))
  }

  // ---------------------------------------------------------------- who survives

  lemma {:induction false} WinnersAreBest(slots: map<Slot, Record>, observed: seq<Slot>)
    requires forall s :: s in observed ==> s in slots
    ensures var w := Winners(slots, observed);
      forall s :: s in observed ==> slots[s].id in w && !Outranks(slots, s, w[slots[s].id])
  {
    if |observed| > 0 {
      var n := |observed| - 1;
      WinnersAreBest(slots, observed[..n]);
      assert observed == observed[..n] + [observed[n]];
    }
  }

  // Exactly one record of every identifier survives, unchanged, in its own slot, and nothing
  // outranks it.
  lemma OneSurvivorPerId(slots: map<Slot, Record>, observed: seq<Slot>)
    requires Covers(slots, observed)
    ensures var kept := Kept(slots, observed);
      && IdsDistinct(kept)
      && (forall s :: s in kept ==> s in slots && kept[s] == slots[s])
      && (forall s :: s in slots ==> exists t :: t in kept && kept[t].id == slots[s].id && !Outranks(slots, s, t))
  {
    WinnersAreBest(slots, observed);
    var w := Winners(slots, observed);
    forall s | s in slots
      ensures exists t :: t in Kept(slots, observed) && Kept(slots, observed)[t].id == slots[s].id && !Outranks(slots, s, t)
    {
      var t := w[slots[s].id];
      assert t in Kept(slots, observed);
    }
  }

  // No two records of one identifier rank the same.
  ghost predicate NoTies(slots: map<Slot, Record>) {
    forall s, t :: s in slots && t in slots && s != t && slots[s].id == slots[t].id
      ==> Outranks(slots, s, t) || Outranks(slots, t, s)
  }

  ghost predicate Best(slots: map<Slot, Record>, s: Slot) {
    s in slots && forall t :: t in slots && t != s && slots[t].id == slots[s].id ==> Outranks(slots, s, t)
  }

  // Without ties the survivors do not depend on the order in which the directories are listed.
  lemma SurvivorsAreBest(slots: map<Slot, Record>, observed: seq<Slot>)
    requires Covers(slots, observed) && NoTies(slots)
    ensures forall s :: s in Kept(slots, observed) <==> Best(slots, s)
  {
    WinnersAreBest(slots, observed);
    forall s | s in slots
      ensures s in Kept(slots, observed) <==> Best(slots, s)
    {
      var w := Winners(slots, observed)[slots[s].id];
      if s != w {
        assert Outranks(slots, s, w) || Outranks(slots, w, s);
        assert !Outranks(slots, s, w);
        assert Outranks(slots, w, s);
      }
    }
  }

  ghost predicate Within(fewer: map<Slot, Record>, slots: map<Slot, Record>) {
    forall s :: s in fewer ==> s in slots && fewer[s] == slots[s]
  }

  lemma FewerHasNoTies(slots: map<Slot, Record>, fewer: map<Slot, Record>)
    requires NoTies(slots) && Within(fewer, slots)
    ensures NoTies(fewer)
  {
    forall s, t | s in fewer && t in fewer && s != t && fewer[s].id == fewer[t].id
      ensures Outranks(fewer, s, t) || Outranks(fewer, t, s)
    {
      assert Outranks(slots, s, t) || Outranks(slots, t, s);
    }
  }

  lemma BestInFewer(slots: map<Slot, Record>, fewer: map<Slot, Record>, s: Slot)
    requires Within(fewer, slots) && Best(slots, s) && s in fewer
    ensures Best(fewer, s)
  {
    forall t | t in fewer && t != s && fewer[t].id == fewer[s].id
      ensures Outranks(fewer, s, t)
    {
      assert Outranks(slots, s, t);
    }
  }

  lemma OnlyOneBest(slots: map<Slot, Record>, s: Slot, t: Slot)
    requires Best(slots, s) && Best(slots, t) && slots[s].id == slots[t].id
    ensures s == t
  {
  }

  // Taking away some of the losers first changes nothing about who survives.
  lemma SameSurvivors(slots: map<Slot, Record>, observed: seq<Slot>, fewer: map<Slot, Record>, observed': seq<Slot>)
    requires Covers(slots, observed) && NoTies(slots) && Covers(fewer, observed') && Within(fewer, slots)
    requires forall s :: s in Kept(slots, observed) ==> s in fewer
    ensures Kept(fewer, observed') == Kept(slots, observed)
  {
    FewerHasNoTies(slots, fewer);
    SurvivorsAreBest(slots, observed);
    SurvivorsAreBest(fewer, observed');
    var kept := Kept(slots, observed);
    forall s | s in kept
      ensures s in Kept(fewer, observed')
    {
      BestInFewer(slots, fewer, s);
    }
    forall s | s in Kept(fewer, observed')
      ensures s in kept
    {
      OneSurvivorPerId(slots, observed);
      var t :| t in kept && kept[t].id == slots[s].id;
      BestInFewer(slots, fewer, t);
      OnlyOneBest(fewer, s, t);
    }
  }

  // ---------------------------------------------------------------- the rebuilt summary tells the truth

  lemma {:induction false} LastIsHighest(slots: map<Slot, Record>, lane: Lane, n: nat)
    ensures forall c :: 0 <= c < n && Slot(lane, c) in slots ==>
      LastCursor(slots, lane, n).Some?
      && slots[Slot(lane, c)].sequence <= slots[Slot(lane, LastCursor(slots, lane, n).value)].sequence
  {
    if n > 0 {
      LastIsHighest(slots, lane, n - 1);
    }
  }

  lemma {:induction false} FirstIsLowest(slots: map<Slot, Record>, lane: Lane, n: nat)
    ensures forall c :: 0 <= c < n && Slot(lane, c) in slots ==>
      FirstCursor(slots, lane, n).Some?
      && slots[Slot(lane, FirstCursor(slots, lane, n).value)].sequence <= slots[Slot(lane, c)].sequence
  {
    if n > 0 {
      FirstIsLowest(slots, lane, n - 1);
    }
  }

  function TotalRecords(slots: map<Slot, Record>, capacity: nat): nat {
    CountUpTo(slots, Ready, capacity) + CountUpTo(slots, Deferred, capacity) + CountUpTo(slots, Held, capacity)
  }

  function TotalSize(slots: map<Slot, Record>, capacity: nat): nat {
    BytesUpTo(slots, Ready, capacity) + BytesUpTo(slots, Deferred, capacity) + BytesUpTo(slots, Held, capacity)
  }

  lemma {:induction false} FewerSlotsCountLess(slots: map<Slot, Record>, fewer: map<Slot, Record>, lane: Lane, n: nat)
    requires Within(fewer, slots)
    ensures CountUpTo(fewer, lane, n) <= CountUpTo(slots, lane, n)
    ensures BytesUpTo(fewer, lane, n) <= BytesUpTo(slots, lane, n)
  {
    if n > 0 {
      FewerSlotsCountLess(slots, fewer, lane, n - 1);
    }
  }

  lemma RebuiltLaneIsAccurate(slots: map<Slot, Record>, lim: Limits, lane: Lane, events: nat)
    requires Sensible(lim)
    ensures LaneAccurate(Disk(slots, {}, Rebuilt(slots, lim.capacity, events)), lim, lane)
  {
    assert Rebuilt(slots, lim.capacity, events).Of(lane) == RebuiltLane(slots, lane, lim.capacity);
  }

  lemma NextIsAbove(slots: map<Slot, Record>, capacity: nat, events: nat)
    requires capacity > 0 && Addressed(slots, capacity)
    ensures forall s :: s in slots ==> slots[s].sequence < Rebuilt(slots, capacity, events).nextSequence
  {
    forall s | s in slots
      ensures slots[s].sequence < Rebuilt(slots, capacity, events).nextSequence
    {
      LastIsHighest(slots, s.lane, capacity);
      assert s == Slot(s.lane, s.cursor);
      assert slots[s].sequence < NextAfter(slots, s.lane, capacity);
      match s.lane case Ready => {} case Deferred => {} case Held => {}
    }
  }

  // What a rebuild writes of a lane: where its oldest and newest record lie, or nothing.
  ghost predicate LaneEnds(slots: map<Slot, Record>, lane: Lane, l: LaneState, capacity: nat)
    requires capacity > 0
  {
    if l.count == 0 then l == LaneState(0, 0, 0, 0) && forall c :: 0 <= c < capacity ==> Slot(lane, c) !in slots
    else
      && IsOldest(slots, lane, l.head, capacity)
      && exists newest: nat :: IsNewest(slots, lane, newest, capacity) && l.write == (newest + 1) % capacity
  }

  ghost predicate IsOldest(slots: map<Slot, Record>, lane: Lane, cursor: nat, capacity: nat) {
    && cursor < capacity && Slot(lane, cursor) in slots
    && forall c :: 0 <= c < capacity && Slot(lane, c) in slots ==>
         slots[Slot(lane, cursor)].sequence <= slots[Slot(lane, c)].sequence
  }

  ghost predicate IsNewest(slots: map<Slot, Record>, lane: Lane, cursor: nat, capacity: nat) {
    && cursor < capacity && Slot(lane, cursor) in slots
    && forall c :: 0 <= c < capacity && Slot(lane, c) in slots ==>
         slots[Slot(lane, c)].sequence <= slots[Slot(lane, cursor)].sequence
  }

  lemma {:induction false} NothingCounted(slots: map<Slot, Record>, lane: Lane, n: nat)
    requires CountUpTo(slots, lane, n) == 0
    ensures BytesUpTo(slots, lane, n) == 0 && forall c :: 0 <= c < n ==> Slot(lane, c) !in slots
  {
    if n > 0 {
      NothingCounted(slots, lane, n - 1);
    }
  }

  lemma RebuiltLaneEnds(slots: map<Slot, Record>, lane: Lane, capacity: nat)
    requires capacity > 0
    ensures LaneEnds(slots, lane, RebuiltLane(slots, lane, capacity), capacity)
  {
    if CountUpTo(slots, lane, capacity) == 0 {
      NothingCounted(slots, lane, capacity);
    } else {
      FirstIsLowest(slots, lane, capacity);
      LastIsHighest(slots, lane, capacity);
      assert IsNewest(slots, lane, LastCursor(slots, lane, capacity).value, capacity);
    }
  }

  // The rebuilt summary keeps the count of refusals, goes on numbering right behind the newest
  // record of all lanes, and begins each lane at its oldest record and writes behind its newest.
  lemma RebuiltIs(slots: map<Slot, Record>, capacity: nat, events: nat)
    requires capacity > 0 && Addressed(slots, capacity)
    ensures var s := Rebuilt(slots, capacity, events);
      && s.capacityEvents == events
      && LaneEnds(slots, Ready, s.ready, capacity) && LaneEnds(slots, Deferred, s.deferred, capacity)
      && LaneEnds(slots, Held, s.held, capacity)
      && (forall t :: t in slots ==> slots[t].sequence < s.nextSequence)
      && (s.nextSequence > 0 ==> exists t :: t in slots && slots[t].sequence + 1 == s.nextSequence)
  {
    RebuiltLaneEnds(slots, Ready, capacity);
    RebuiltLaneEnds(slots, Deferred, capacity);
    RebuiltLaneEnds(slots, Held, capacity);
    NextIsAbove(slots, capacity, events);
  }

  // Between records alike in generation and sequence the later lane decides.
  lemma TiesGoToTheLaterLane(slots: map<Slot, Record>, observed: seq<Slot>, s: Slot, t: Slot)
    requires Covers(slots, observed) && s in slots && t in Kept(slots, observed) && slots[s].id == slots[t].id
    requires slots[s].generation == slots[t].generation && slots[s].sequence == slots[t].sequence
    ensures s.lane.Held? ==> t.lane.Held?
    ensures s.lane.Deferred? ==> !t.lane.Ready?
  {
    OneSurvivorPerId(slots, observed);
    var u :| u in Kept(slots, observed) && slots[u].id == slots[s].id && !Outranks(slots, s, u);
    assert u == t;
  }

  // The rebuild of slots that fit the limits and have one record per identifier.
  lemma RebuildIsAccurate(slots: map<Slot, Record>, lim: Limits, events: nat)
    requires Sensible(lim) && Addressed(slots, lim.capacity) && SequencesDistinct(slots)
    requires TotalRecords(slots, lim.capacity) <= lim.maxRecords && TotalSize(slots, lim.capacity) <= lim.maxRecordBytes
    ensures Accurate(Disk(slots, {}, Rebuilt(slots, lim.capacity, events)), lim)
  {
    RebuiltLaneIsAccurate(slots, lim, Ready, events);
    RebuiltLaneIsAccurate(slots, lim, Deferred, events);
    RebuiltLaneIsAccurate(slots, lim, Held, events);
    NextIsAbove(slots, lim.capacity, events);
  }

  // Counts and bytes are those of the slots and the next sequence is above every stored one.
  lemma RebuiltIsAccurate(d: Disk, lim: Limits, observed: seq<Slot>)
    requires Sensible(lim) && Covers(d.slots, observed) && Addressed(d.slots, lim.capacity)
    requires SequencesDistinct(d.slots)
    requires TotalRecords(d.slots, lim.capacity) <= lim.maxRecords && TotalSize(d.slots, lim.capacity) <= lim.maxRecordBytes
    ensures Accurate(Reconciled(d, lim.capacity, observed), lim)
    ensures IdsDistinct(Reconciled(d, lim.capacity, observed).slots)
  {
    var kept := Kept(d.slots, observed);
    OneSurvivorPerId(d.slots, observed);
    assert Within(kept, d.slots);
    FewerSlotsCountLess(d.slots, kept, Ready, lim.capacity);
    FewerSlotsCountLess(d.slots, kept, Deferred, lim.capacity);
    FewerSlotsCountLess(d.slots, kept, Held, lim.capacity);
    RebuildIsAccurate(kept, lim, d.summary.capacityEvents);
  }

  lemma DistinctAreAllKept(slots: map<Slot, Record>, observed: seq<Slot>)
    requires Covers(slots, observed) && IdsDistinct(slots)
    ensures Kept(slots, observed) == slots
  {
    OneSurvivorPerId(slots, observed);
    forall s | s in slots
      ensures s in Kept(slots, observed)
    {
      var t :| t in Kept(slots, observed) && Kept(slots, observed)[t].id == slots[s].id;
      assert t == s;
    }
  }

  lemma ReconcileIsIdempotent(d: Disk, capacity: nat, observed: seq<Slot>, again: seq<Slot>)
    requires capacity > 0 && Covers(d.slots, observed)
    requires Covers(Reconciled(d, capacity, observed).slots, again)
    ensures Reconciled(Reconciled(d, capacity, observed), capacity, again) == Reconciled(d, capacity, observed)
  {
    OneSurvivorPerId(d.slots, observed);
    DistinctAreAllKept(Kept(d.slots, observed), again);
  }

  // ---------------------------------------------------------------- its own steps, and restarting after any of them

  function TempOps(temps: set<Slot>, scan: seq<Slot>): (ops: seq<Op>)
    ensures forall op :: op in ops ==> op.RemoveTemp?
  {
    if |scan| == 0 then []
    else
      var rest := TempOps(temps, scan[..|scan| - 1]);
      var slot := scan[|scan| - 1];
      if slot in temps then rest + [RemoveTemp(slot)] else rest
  }

  function LoserOps(kept: map<Slot, Record>, observed: seq<Slot>): (ops: seq<Op>)
    ensures forall op :: op in ops ==> op.RemoveRecord? && op.slot !in kept && op.slot in observed
  {
    if |observed| == 0 then []
    else
      var rest := LoserOps(kept, observed[..|observed| - 1]);
      var slot := observed[|observed| - 1];
      if slot in kept then rest else rest + [RemoveRecord(slot)]
  }

  function ReconcileOps(d: Disk, capacity: nat, scan: seq<Slot>, observed: seq<Slot>): seq<Op>
    requires capacity > 0 && forall s :: s in observed ==> s in d.slots
  {
    var kept := Kept(d.slots, observed);
    TempOps(d.temps, scan) + LoserOps(kept, observed) + [WriteSummary(Rebuilt(kept, capacity, d.summary.capacityEvents))]
  }

  // Steps that only take away temporary files and losers leave every survivor where it was.
  ghost predicate Harmless(kept: map<Slot, Record>, ops: seq<Op>) {
    forall op :: op in ops ==> op.RemoveTemp? || (op.RemoveRecord? && op.slot !in kept)
  }

  lemma {:induction false} HarmlessRun(d: Disk, kept: map<Slot, Record>, ops: seq<Op>)
    requires Harmless(kept, ops)
    ensures var e := Run(d, ops);
      && e.summary == d.summary
      && (forall s :: s in e.slots ==> s in d.slots && e.slots[s] == d.slots[s])
      && (forall s :: s in kept && s in d.slots ==> s in e.slots)
      && (forall s :: s in e.slots ==> RemoveRecord(s) !in ops)
      && (forall s :: s in d.slots && s !in e.slots ==> RemoveRecord(s) in ops)
      && e.temps <= d.temps && (forall s :: s in e.temps ==> RemoveTemp(s) !in ops)
  {
    if |ops| > 0 {
      var n := |ops| - 1;
      HarmlessRun(d, kept, ops[..n]);
      assert ops == ops[..n] + [ops[n]];
    }
  }

  lemma {:induction false} TempOpsCover(temps: set<Slot>, scan: seq<Slot>)
    ensures forall s :: s in temps && s in scan ==> RemoveTemp(s) in TempOps(temps, scan)
  {
    if |scan| > 0 {
      TempOpsCover(temps, scan[..|scan| - 1]);
      assert scan == scan[..|scan| - 1] + [scan[|scan| - 1]];
    }
  }

  lemma {:induction false} LoserOpsCover(kept: map<Slot, Record>, observed: seq<Slot>)
    ensures forall s :: s in observed && s !in kept ==> RemoveRecord(s) in LoserOps(kept, observed)
  {
    if |observed| > 0 {
      LoserOpsCover(kept, observed[..|observed| - 1]);
      assert observed == observed[..|observed| - 1] + [observed[|observed| - 1]];
    }
  }

  // Without temporary files and losers the kept records are left, under the old summary.
  lemma CleaningRuns(d: Disk, scan: seq<Slot>, observed: seq<Slot>)
    requires Covers(d.slots, observed) && (forall s :: s in d.temps ==> s in scan)
    ensures var kept := Kept(d.slots, observed);
      Run(d, TempOps(d.temps, scan) + LoserOps(kept, observed)) == Disk(kept, {}, d.summary)
  {
    var kept := Kept(d.slots, observed);
    var harmless := TempOps(d.temps, scan) + LoserOps(kept, observed);
    HarmlessRun(d, kept, harmless);
    TempOpsCover(d.temps, scan);
    LoserOpsCover(kept, observed);
    var e := Run(d, harmless);
    forall s
      ensures s in e.slots <==> s in kept
    {
      if s in d.slots && s !in kept {
        assert RemoveRecord(s) in LoserOps(kept, observed);
      }
    }
    assert e.slots == kept;
    assert forall s :: s in d.temps ==> RemoveTemp(s) in harmless;
    assert e.temps == {};
  }

  lemma ReconcileRuns(d: Disk, capacity: nat, scan: seq<Slot>, observed: seq<Slot>)
    requires capacity > 0 && Covers(d.slots, observed) && (forall s :: s in d.temps ==> s in scan)
    ensures Run(d, ReconcileOps(d, capacity, scan, observed)) == Reconciled(d, capacity, observed)
  {
    var kept := Kept(d.slots, observed);
    var ops := ReconcileOps(d, capacity, scan, observed);
    assert ops[..|ops| - 1] == TempOps(d.temps, scan) + LoserOps(kept, observed);
    CleaningRuns(d, scan, observed);
  }

  // Stop the rebuild after any of its steps and run it again, with the directories listed in
  // whatever order: the outcome is the one of the uninterrupted rebuild.
  lemma ReconcileRestarts(d: Disk, capacity: nat, scan: seq<Slot>, observed: seq<Slot>, k: nat, observed': seq<Slot>)
    requires capacity > 0 && Covers(d.slots, observed) && NoTies(d.slots) && (forall s :: s in d.temps ==> s in scan)
    requires k <= |ReconcileOps(d, capacity, scan, observed)|
    requires Covers(Run(d, ReconcileOps(d, capacity, scan, observed)[..k]).slots, observed')
    ensures Reconciled(Run(d, ReconcileOps(d, capacity, scan, observed)[..k]), capacity, observed')
         == Reconciled(d, capacity, observed)
  {
    var kept := Kept(d.slots, observed);
    var ops := ReconcileOps(d, capacity, scan, observed);
    OneSurvivorPerId(d.slots, observed);
    if k == |ops| {
      assert ops[..k] == ops;
      ReconcileRuns(d, capacity, scan, observed);
      ReconcileIsIdempotent(d, capacity, observed, observed');
    } else {
      var e := Run(d, ops[..k]);
      assert forall op :: op in ops[..k] ==> op in TempOps(d.temps, scan) + LoserOps(kept, observed);
      HarmlessRun(d, kept, ops[..k]);
      SameSurvivors(d.slots, observed, e.slots, observed');
    }
  }
}
