/**
  A publication together with the queue that keeps its record: sweeps may defer the record while
  the publication copies its file, and the publication then moves the record it began with.
 */
module QueuedPublications {
  import opened Options
  import opened QueueModel
  import opened QueueAccounting
  import opened QueueRecovery
  import opened QueueCrashes
  import opened QueueRuns
  import P = Publication

  // ---------------------------------------------------------------- one identifier in the queue

  // The slot holds the only record of its identifier.
  ghost predicate Only(slots: map<Slot, Record>, s: Slot) {
    s in slots && forall t :: t in slots && slots[t].id == slots[s].id ==> t == s
  }

  predicate Concerns(c: Call, id: nat) {
    match c
    case Put(_, r) => r.id == id
    case Drop(_, item) => item.id == id
    case Shift(_, item, _, _, _, _) => item.id == id
    case Rebuild => false
  }

  // Other calls, and restarts, leave the record where it is.
  lemma OthersLeaveIt(d: Disk, lim: Limits, e: Event, s: Slot)
    requires Accurate(d, lim) && Listed(d, lim, e) && Only(d.slots, s) && !Concerns(e.call, d.slots[s].id)
    ensures var after := Step(d, lim, e).slots; Only(after, s) && after[s] == d.slots[s]
  {
    StepKeeps(d, lim, e);
    var after := Step(d, lim, e).slots;
    assert Has(after, d.slots[s]);
    var t :| t in after && AtLeast(after[t], d.slots[s]);
    assert t == s;
  }

  // A sweep defers the record that is now in the slot, as it is.
  ghost predicate Deferral(d: Disk, lim: Limits, e: Event, s: Slot) {
    && s in d.slots && e.cut.None? && e.call.Shift? && e.call.lane == Deferred && e.call.slot == s
    && e.call.item == d.slots[s] && e.call.body == d.slots[s].body && HasRoom(d, lim, e.call.size)
  }

  // A move of the record that is in its slot.
  lemma MoveOfCurrent(d: Disk, lim: Limits, e: Event) returns (to: Slot)
    requires Accurate(d, lim) && e.cut.None? && e.call.Shift? && HasRoom(d, lim, e.call.size)
    requires Only(d.slots, e.call.slot) && d.slots[e.call.slot] == e.call.item
    ensures to.lane == e.call.lane && to !in d.slots
    ensures Step(d, lim, e).slots
         == d.slots[to := Prepare(Moved(e.call.item, e.call.size, e.call.dueAt, e.call.body), d.summary.nextSequence)] - {e.call.slot}
  {
    var c := e.call;
    var p := Forward(d, lim, c);
    var r := Moved(c.item, c.size, c.dueAt, c.body);
    ForwardEffect(d, lim, c);
    EnqueueEffect(d, lim, c.lane, r, ByGeneration);
    EnqueueKeeps(d, lim, c.lane, r, ByGeneration);
    to := p.result.slot;
    assert OpsOf(d, lim, e)[..|OpsOf(d, lim, e)|] == OpsOf(d, lim, e);
    RunConcat(d, p.ops, CompletionOps(Run(d, p.ops), lim, c.slot, c.item, e.listing));
    CompletionEffect(Run(d, p.ops), lim, c.slot, c.item, e.listing);
  }

  // So many deferrals of the record, and any other calls about other records, cut off or not.
  ghost predicate OnlyDeferred(d: Disk, lim: Limits, events: seq<Event>, id: nat, n: nat)
    requires lim.capacity > 0
    decreases |events|
  {
    if |events| == 0 then n == 0
    else
      var prefix, e := events[..|events| - 1], events[|events| - 1];
      if !Concerns(e.call, id) then OnlyDeferred(d, lim, prefix, id, n)
      else
        n > 0 && OnlyDeferred(d, lim, prefix, id, n - 1)
        && e.call.Shift? && Deferral(Steps(d, lim, prefix), lim, e, e.call.slot)
  }

  // The record after so many deferrals: as many generations on, in the deferred lane.
  ghost predicate IsCopy(slots: map<Slot, Record>, s: Slot, item: Record, n: nat, copy: Slot) {
    && Only(slots, copy) && slots[copy].id == item.id && slots[copy].body == item.body
    && slots[copy].generation == item.generation + n
    && (if n == 0 then copy == s && slots[copy] == item else copy.lane == Deferred)
  }

  lemma DeferralStep(d: Disk, lim: Limits, e: Event, s: Slot, item: Record, n: nat, last: Slot) returns (copy: Slot)
    requires Accurate(d, lim) && IsCopy(d.slots, s, item, n, last) && e.call.Shift? && e.call.item.id == item.id
    requires Deferral(d, lim, e, e.call.slot)
    ensures IsCopy(Step(d, lim, e).slots, s, item, n + 1, copy)
  {
    assert e.call.slot == last;
    copy := MoveOfCurrent(d, lim, e);
  }

  lemma OtherStep(d: Disk, lim: Limits, e: Event, s: Slot, item: Record, n: nat, copy: Slot)
    requires Accurate(d, lim) && Listed(d, lim, e) && IsCopy(d.slots, s, item, n, copy) && !Concerns(e.call, item.id)
    ensures IsCopy(Step(d, lim, e).slots, s, item, n, copy)
  {
    OthersLeaveIt(d, lim, e, copy);
  }

  lemma CountStep(d: Disk, lim: Limits, e: Event, s: Slot, item: Record, n: nat, last: Slot) returns (copy: Slot)
    requires Accurate(d, lim) && Listed(d, lim, e)
    requires Concerns(e.call, item.id) ==> n > 0 && e.call.Shift? && Deferral(d, lim, e, e.call.slot)
    requires IsCopy(d.slots, s, item, if Concerns(e.call, item.id) then n - 1 else n, last)
    ensures Accurate(Step(d, lim, e), lim) && IsCopy(Step(d, lim, e).slots, s, item, n, copy)
  {
    StepKeeps(d, lim, e);
    if Concerns(e.call, item.id) {
      copy := DeferralStep(d, lim, e, s, item, n - 1, last);
    } else {
      copy := last;
      OtherStep(d, lim, e, s, item, n, copy);
    }
  }

  lemma {:induction false} DeferralsCount(d: Disk, lim: Limits, events: seq<Event>, s: Slot, n: nat) returns (copy: Slot)
    requires Accurate(d, lim) && AllListed(d, lim, events) && Only(d.slots, s)
    requires OnlyDeferred(d, lim, events, d.slots[s].id, n)
    ensures Accurate(Steps(d, lim, events), lim) && IsCopy(Steps(d, lim, events).slots, s, d.slots[s], n, copy)
    decreases |events|
  {
    if |events| == 0 {
      copy := s;
    } else {
      var prefix, e := events[..|events| - 1], events[|events| - 1];
      var last := DeferralsCount(d, lim, prefix, s, if Concerns(e.call, d.slots[s].id) then n - 1 else n);
      copy := CountStep(Steps(d, lim, prefix), lim, e, s, d.slots[s], n, last);
    }
  }

  // ---------------------------------------------------------------- the publication's own move

  // It moves the record it began with, now with the source in its body.  That record's slot has
  // not been used again, and the move itself does not use it.
  ghost predicate Finishes(d: Disk, lim: Limits, e: Event, s: Slot, item: Record) {
    && lim.capacity > 0 && Listed(d, lim, e) && e.cut.None? && e.call.Shift? && e.call.lane == Ready && HasRoom(d, lim, e.call.size)
    && e.call.slot == s && e.call.item == item && e.call.body != item.body
    && (s in d.slots ==> d.slots[s] == item)
    && (s !in d.slots ==> s.lane == Ready && FirstFree(d, lim, Ready) != Some(s.cursor))
  }

  // Beside the deferred record, the one stored late survives a rebuild only as its equal.
  lemma LaterSurvives(slots: map<Slot, Record>, found: seq<Slot>, item: Record, n: nat, copy: Slot, to: Slot, r: Record)
    returns (last: Slot)
    requires n > 0 && Only(slots, copy) && slots[copy].id == item.id && slots[copy].generation == item.generation + n
    requires to !in slots && r.id == item.id && r.generation == item.generation + 1 && r.sequence > slots[copy].sequence
    requires Covers(slots[to := r], found) && SequencesDistinct(slots[to := r])
    ensures var kept := Kept(slots[to := r], found);
      Only(kept, last) && kept[last] == if n < 2 then r else slots[copy]
  {
    var both := slots[to := r];
    last := if n < 2 then to else copy;
    DistinctSequencesDoNotTie(both);
    SurvivorsAreBest(both, found);
    OneSurvivorPerId(both, found);
    assert Best(both, last);
  }

  lemma LateFinish(d: Disk, lim: Limits, e: Event, s: Slot, item: Record, n: nat, copy: Slot) returns (last: Slot)
    requires Accurate(d, lim) && n > 0 && IsCopy(d.slots, s, item, n, copy) && Finishes(d, lim, e, s, item)
    ensures Only(Step(d, lim, e).slots, last) && Step(d, lim, e).slots[last].id == item.id
    ensures Step(d, lim, e).slots[last].body == if n < 2 then e.call.body else item.body
  {
    var c := e.call;
    var p := Forward(d, lim, c);
    var between := Run(d, p.ops);
    assert s !in d.slots;
    ForwardEffect(d, lim, c);
    EnqueueEffect(d, lim, c.lane, Moved(c.item, c.size, c.dueAt, c.body), ByGeneration);
    EnqueueKeeps(d, lim, c.lane, Moved(c.item, c.size, c.dueAt, c.body), ByGeneration);
    assert OpsOf(d, lim, e)[..|OpsOf(d, lim, e)|] == OpsOf(d, lim, e);
    RunConcat(d, p.ops, CompletionOps(between, lim, c.slot, c.item, e.listing));
    CompletionEffect(between, lim, c.slot, c.item, e.listing);
    last := LaterSurvives(d.slots, e.listing.found, item, n, copy, p.result.slot, p.result.record);
  }

  // What is left of the record has the source exactly if it was deferred less than twice.
  lemma SourceIsKeptIff(d: Disk, lim: Limits, events: seq<Event>, s: Slot, n: nat, e: Event) returns (last: Slot)
    requires Accurate(d, lim) && AllListed(d, lim, events) && Only(d.slots, s)
    requires OnlyDeferred(d, lim, events, d.slots[s].id, n) && Finishes(Steps(d, lim, events), lim, e, s, d.slots[s])
    ensures var after := Step(Steps(d, lim, events), lim, e).slots;
      && Only(after, last) && after[last].id == d.slots[s].id
      && (after[last].body == e.call.body <==> n < 2) && (after[last].body == d.slots[s].body <==> n >= 2)
  {
    var end := Steps(d, lim, events);
    var copy := DeferralsCount(d, lim, events, s, n);
    if n == 0 {
      last := MoveOfCurrent(end, lim, e);
    } else {
      last := LateFinish(end, lim, e, s, d.slots[s], n, copy);
    }
  }

  // ---------------------------------------------------------------- what the sweep makes of the published file

  // The intent a record stands for.
  function IntentOf(p: P.Job, record: Record, bound: nat): P.Intent {
    P.PlainIntent(p).(source := if record.body == bound then Some(P.Source(p.ino, |P.Payload(p)|)) else None)
  }

  // The publication is through: its file has its canonical name and nothing else.
  ghost predicate IsThrough(p: P.Job, s: P.State) {
    && P.Safe(p, s) && !s.running && s.pc > P.ForgetStep(p)
    && p.stageName !in s.dir.names && p.objectName in s.dir.names && s.dir.names[p.objectName] == p.ino
  }

  // A published file is held, by every sweep of every continuation, exactly if its record was
  // deferred at least twice before the publication moved it: it is then never collected, though
  // nothing may refer to it.
  lemma PublishedIsHeldIff(
    d: Disk, lim: Limits, events: seq<Event>, s: Slot, n: nat, e: Event,
    p: P.Job, state: P.State, sweeps: seq<P.Event>, view: P.View)
    requires Accurate(d, lim) && AllListed(d, lim, events) && Only(d.slots, s)
    requires OnlyDeferred(d, lim, events, d.slots[s].id, n) && Finishes(Steps(d, lim, events), lim, e, s, d.slots[s])
    requires IsThrough(p, state)
    ensures exists last ::
      && Only(Step(Steps(d, lim, events), lim, e).slots, last)
      && Step(Steps(d, lim, events), lim, e).slots[last].id == d.slots[s].id
      && var queued := state.(intent := Some(IntentOf(p, Step(Steps(d, lim, events), lim, e).slots[last], e.call.body)));
      && (P.Recover(queued.dir, queued.intent.value, view).outcome == P.Held <==> n >= 2)
      && (n >= 2 ==>
            var end := P.Happened(p, queued, sweeps);
            end.intent.Some? && P.WellFormed(end.dir) && P.Recover(end.dir, end.intent.value, view) == P.Verdict([], P.Held)
            && p.objectName in end.dir.names && end.dir.names[p.objectName] == p.ino)
  {
    var last := SourceIsKeptIff(d, lim, events, s, n, e);
    var queued := state.(intent := Some(IntentOf(p, Step(Steps(d, lim, events), lim, e).slots[last], e.call.body)));
    assert P.Safe(p, queued);
    if n >= 2 {
      assert P.Unresolvable(p, queued) && P.ForGood(p, queued);
      P.HeldForEver(p, queued, [], view);
      P.HeldForEver(p, queued, sweeps, view);
    }
  }
}
