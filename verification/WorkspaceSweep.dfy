/**
  The sweep over abandoned workspaces: every directory tree is retired, emptied within the
  budgets of the sweep, and removed; what is active, fresh or unknown is left alone.
 */
module WorkspaceSweeps {
  import opened Options
  import opened WorkspaceTrees

  datatype Budget = Budget(maxDirectories: nat, maxEntries: nat, maxMutations: nat)

  // Unreadable and Refused stand for the exceptions of reading and of writing the position.
  datatype Outcome = Cleared | Paused | Unreadable | Refused

  datatype Progress = Finished | Stopped | Moved | TooLong

  datatype Removal = Removed | Unfinished | IdentityChanged | Jammed

  // What becomes of a queue record: held, deferred, completed; or the sweep fails.
  datatype Decision = Hold | Defer | Drop | Fail

  function Max(a: nat, b: nat): nat { if a < b then b else a }

  // An empty directory below the root, and too few mutations left to remove it.
  ghost predicate Stuck(s: State, budget: Budget, mutations: nat) {
    mutations + 4 > budget.maxMutations && s.stack != [] && Children(s.tree, s.stack) == {}
  }

  // So many turns from one state to another, and the mutations they spent.
  ghost predicate Spent(s: State, before: nat, t: State, after: nat, turns: nat, budget: Budget) {
    && Good(t) && Turns(s, t, turns) && after + Work(t) == before + Work(s)
    && before <= after <= Max(before, budget.maxMutations)
    && (turns > 0 ==> after >= before + 2 && !Stuck(s, budget, before))
    && (turns == 0 ==> t == s && after == before)
  }

  lemma SpendsOnATurn(s: State, before: nat, m: State, middle: nat, t: State, after: nat, turns: nat, budget: Budget)
    requires Good(m) && Spent(s, before, m, middle, turns, budget)
    requires Turn(m, t) && after == middle + Cost(m, t) && after <= budget.maxMutations && !Stuck(m, budget, middle)
    ensures Spent(s, before, t, after, turns + 1, budget) && 0 <= Work(t) < Work(m)
  {
    OneMoreTurn(s, m, t, turns);
  }

  // Where a turn can be taken there is work for it.
  lemma SomeWork(s: State)
    requires Good(s)
    ensures s.stack != [] && Children(s.tree, s.stack) == {} ==> Work(s) >= 4
    ensures Children(s.tree, s.stack) != {} ==> Work(s) >= 2
  {
    WorkIsLeft(s);
    if s.stack != [] {
      assert s.stack in Directories(s.tree);
    }
    if Children(s.tree, s.stack) != {} {
      var c :| c in Children(s.tree, s.stack);
      assert c in Files(s.tree) || c in Directories(s.tree);
    }
  }

  // The counters of one sweep, and its clock.
  class Stats {
    var directories: nat
    var entries: nat
    var mutations: nat
    var examined: nat
    var exhausted: bool
    // How many more readings of the clock come before the deadline.
    var ticks: nat

    constructor (ticks: nat)
      ensures this.ticks == ticks
      ensures directories == 0 && entries == 0 && mutations == 0 && examined == 0 && !exhausted
    {
      this.ticks := ticks;
      directories, entries, mutations, examined, exhausted := 0, 0, 0, 0, false;
    }

    // One more turn may be taken: there is time, and every budget has room for the dearest turn.
    ghost predicate Roomy(budget: Budget)
      reads this
    {
      ticks >= 2 && directories < budget.maxDirectories && entries < budget.maxEntries && mutations + 4 <= budget.maxMutations
    }

    ghost function Now(): Tally
      reads this
    {
      Tally(directories, entries, mutations, examined, ticks)
    }

    ghost predicate Enough(budget: Budget, work: int)
      reads this
    {
      Now().Allows(budget, work)
    }

    method Late() returns (late: bool)
      modifies `ticks
      ensures late == (old(ticks) == 0) && ticks == (if late then 0 else old(ticks) - 1)
    {
      late := ticks == 0;
      if !late {
        ticks := ticks - 1;
      }
    }

    method Available(budget: Budget, needed: nat) returns (available: bool)
      modifies `ticks
      ensures ticks == if old(ticks) == 0 then 0 else old(ticks) - 1
      ensures available == (old(ticks) > 0 && mutations + needed <= budget.maxMutations)
    {
      var late := Late();
      available := !late && mutations + needed <= budget.maxMutations;
    }
  }

  // What a workspace is like at some moment.
  datatype Shot = Shot(present: bool, retired: bool, at: State)

  // Retiring it, emptying it, and removing its root.
  function Left(w: Shot): int { if w.present then Work(w.at) + 2 + (if w.retired then 0 else 2) else 0 }

  // What the counters of a sweep are at some moment.
  datatype Tally = Tally(directories: nat, entries: nat, mutations: nat, examined: nat, ticks: nat)
  {
    // There is time and budget for all of this work: every turn spends two mutations or more, two
    // readings, a directory and perhaps an entry.
    ghost predicate Allows(budget: Budget, work: int) {
      && ticks > work && directories + work < budget.maxDirectories && entries + work < budget.maxEntries
      && mutations + work <= budget.maxMutations
    }
  }

  class Workspace {
    const execution: nat
    const identity: nat
    // Whether the directory is there, and whether under its retired name.
    var present: bool
    var retired: bool
    var tree: Tree
    var saved: Path

    ghost predicate Valid()
      reads this
    {
      Good(At())
    }

    ghost function At(): State
      reads this
    {
      State(tree, saved)
    }

    constructor (execution: nat, identity: nat, tree: Tree)
      requires Closed(tree)
      ensures this.execution == execution && this.identity == identity && this.tree == tree
      ensures Valid() && present && !retired && saved == []
    {
      this.execution, this.identity, this.tree := execution, identity, tree;
      present, retired, saved := true, false, [];
    }

    // Writes the position, unless its encoding is too long.
    method SavePosition(position: Path) returns (written: bool)
      modifies `saved
      ensures written == Writable(position) && saved == if written then position else old(saved)
    {
      written := Writable(position);
      if written {
        saved := position;
      }
    }

    // One turn: the first entry listed is entered or unlinked, an empty directory is left.
    method Advance(stats: Stats, budget: Budget) returns (progress: Progress)
      requires Valid()
      modifies `tree, `saved, stats`directories, stats`entries, stats`mutations, stats`ticks
      ensures progress.Moved? ==>
        && Turn(old(At()), At()) && !Stuck(old(At()), budget, old(stats.mutations))
        && stats.mutations == old(stats.mutations) + Cost(old(At()), At()) && stats.mutations <= budget.maxMutations
      ensures !progress.Moved? ==> At() == old(At()) && stats.mutations == old(stats.mutations)
      ensures progress.Finished? ==> tree == map[] && saved == [] && stats.ticks == old(stats.ticks) - 1
      ensures progress.Stopped? ==> !old(stats.Roomy(budget)) && !old(stats.Enough(budget, Work(At())))
      ensures progress.Moved? ==>
        && stats.ticks == old(stats.ticks) - 2 && stats.directories == old(stats.directories) + 1
        && stats.entries <= old(stats.entries) + 1
      ensures progress.TooLong? ==> exists c :: Refuses(At(), c)
      ensures stats.ticks <= old(stats.ticks)
      ensures stats.directories <= Max(old(stats.directories), budget.maxDirectories)
      ensures stats.entries <= Max(old(stats.entries), budget.maxEntries)
    {
      WorkIsLeft(At());
      SomeWork(At());
      var late := stats.Late();
      if late || stats.entries >= budget.maxEntries || stats.directories >= budget.maxDirectories {
        return Stopped;
      }
      stats.directories := stats.directories + 1;
      var listed := Children(tree, saved);
      if listed == {} {
        if saved == [] {
          FinishedMeansEmpty(At());
          return Finished;
        }
        var available := stats.Available(budget, 4);
        if !available {
          return Stopped;
        }
        ParentIsWritable(saved);
        tree := tree - {saved};
        var written := SavePosition(Parent(saved));
        assert written;
        stats.mutations := stats.mutations + 4;
        return Moved;
      }
      // whichever entry the listing gives first
      var entry :| entry in listed;
      stats.entries := stats.entries + 1;
      var available := stats.Available(budget, 2);
      if !available {
        return Stopped;
      }
      if tree[entry].Directory? {
        var written := SavePosition(entry);
        if !written {
          assert Refuses(At(), entry);
          return TooLong;
        }
        assert Visit(old(At()), entry, At());
      } else {
        tree := tree - {entry};
        assert Visit(old(At()), entry, At());
      }
      stats.mutations := stats.mutations + 2;
      return Moved;
    }

    // Empties the workspace as far as the budgets and the deadline allow.  What it spends is
    // exactly the work it does, so that however often it is stopped, the whole costs the same.
    method Clear(stats: Stats, budget: Budget) returns (outcome: Outcome, ghost turns: nat)
      requires Valid()
      modifies `tree, `saved, stats`directories, stats`entries, stats`mutations, stats`ticks
      ensures Valid()
      ensures outcome.Unreadable? <==> !Readable(old(saved))
      ensures outcome.Unreadable? ==> At() == old(At()) && stats.mutations == old(stats.mutations)
      ensures outcome.Cleared? ==> tree == map[] && saved == []
      ensures outcome.Refused? ==> exists c :: Refuses(At(), c)
      ensures Spent(old(At()), old(stats.mutations), At(), stats.mutations, turns, budget)
      ensures stats.directories <= Max(old(stats.directories), budget.maxDirectories)
      ensures stats.entries <= Max(old(stats.entries), budget.maxEntries)
      ensures old(stats.Roomy(budget) && Readable(saved)) ==>
        outcome.Cleared? || outcome.Refused? || stats.mutations > old(stats.mutations)
      ensures old(Readable(saved) && stats.Enough(budget, Work(At()))) ==> outcome.Cleared? || outcome.Refused?
      ensures outcome.Cleared? ==> stats.ticks == old(stats.ticks) - 2 * turns - 1 && 2 * turns <= old(Work(At()))
      ensures stats.ticks <= old(stats.ticks)
    {
      turns := 0;
      ghost var start, before := At(), stats.mutations;
      if !Readable(saved) {
        return Unreadable, 0;
      }
      while true
        invariant Good(At()) && Spent(start, before, At(), stats.mutations, turns, budget)
        invariant stats.directories <= Max(old(stats.directories), budget.maxDirectories)
        invariant stats.entries <= Max(old(stats.entries), budget.maxEntries)
        invariant turns == 0 ==> stats.Roomy(budget) == old(stats.Roomy(budget))
        invariant stats.ticks == old(stats.ticks) - 2 * turns && 2 * turns + Work(At()) <= old(Work(At()))
        invariant old(stats.Enough(budget, Work(At()))) ==> stats.Enough(budget, Work(At()))
        decreases Work(At())
      {
        ghost var s, middle := At(), stats.mutations;
        var progress := Advance(stats, budget);
        if progress.Finished? {
          WorkIsLeft(At());
          return Cleared, turns;
        }
        if progress.Stopped? {
          return Paused, turns;
        }
        if progress.TooLong? {
          return Refused, turns;
        }
        SpendsOnATurn(start, before, s, middle, At(), stats.mutations, turns, budget);
        turns := turns + 1;
      }
    }

    ghost function Seen(): Shot
      reads this
    {
      Shot(present, retired, At())
    }

    // The mutations that removing this workspace still takes.
    ghost function Remaining(): int
      reads this
    {
      Left(Seen())
    }

    ghost predicate Removable(expected: nat)
      reads this
    {
      present && identity == expected && Readable(saved) && AllWritable(tree)
    }

    // Under its retired name the workspace is emptied and its root removed.
    method EmptyAndRemove(stats: Stats, budget: Budget) returns (removal: Removal)
      requires Valid() && present && retired
      modifies `present, `tree, `saved, stats`directories, stats`entries, stats`mutations, stats`ticks
      ensures Valid() && (old(AllReadable(tree)) ==> AllReadable(tree)) && (old(AllWritable(tree)) ==> AllWritable(tree))
      ensures (removal.Removed? <==> !present) && !removal.IdentityChanged?
      ensures removal.Removed? ==> tree == map[] && saved == []
      ensures old(Stuck(At(), budget, stats.mutations)) ==> At() == old(At())
      ensures stats.mutations + Remaining() == old(stats.mutations + Remaining())
      ensures stats.mutations == old(stats.mutations) || old(stats.mutations) + 2 <= stats.mutations <= budget.maxMutations
      ensures stats.directories <= Max(old(stats.directories), budget.maxDirectories)
      ensures stats.entries <= Max(old(stats.entries), budget.maxEntries)
      ensures !Readable(old(saved)) ==> removal.Jammed? && At() == old(At())
      ensures removal.Jammed? ==> !Readable(old(saved)) || !old(AllWritable(tree))
      ensures old(stats.Enough(budget, Remaining())) ==> removal.Removed? || removal.Jammed?
      ensures stats.ticks <= old(stats.ticks)
      ensures Readable(old(saved)) && old(stats.Roomy(budget)) ==>
        removal.Removed? || stats.mutations > old(stats.mutations) || exists c :: Refuses(old(At()), c)
    {
      WorkIsLeft(At());
      ghost var start := At();
      var outcome, turns := Clear(stats, budget);
      TurnsKeep(start, At(), turns);
      if outcome.Unreadable? || outcome.Refused? {
        return Jammed;
      }
      if outcome.Paused? {
        return Unfinished;
      }
      var available := stats.Available(budget, 2);
      if !available {
        return Unfinished;
      }
      present := false;
      stats.mutations := stats.mutations + 2;
      return Removed;
    }

    method Cleanup(expected: nat, stats: Stats, budget: Budget) returns (removal: Removal)
      requires Valid()
      modifies `present, `retired, `tree, `saved
      modifies stats`directories, stats`entries, stats`mutations, stats`ticks
      ensures Valid() && (old(AllReadable(tree)) ==> AllReadable(tree)) && (old(AllWritable(tree)) ==> AllWritable(tree))
      ensures removal.Removed? <==> !present
      ensures removal.Removed? && old(present) ==> tree == map[] && saved == []
      ensures old(present && retired && Stuck(At(), budget, stats.mutations)) ==> At() == old(At())
      ensures stats.mutations + Remaining() == old(stats.mutations + Remaining())
      ensures stats.mutations == old(stats.mutations) || old(stats.mutations) + 2 <= stats.mutations <= budget.maxMutations
      ensures stats.directories <= Max(old(stats.directories), budget.maxDirectories)
      ensures stats.entries <= Max(old(stats.entries), budget.maxEntries)
      ensures removal.IdentityChanged? ==> old(present) && identity != expected
      ensures old(present && identity != expected) ==> removal.IdentityChanged? && At() == old(At()) && retired == old(retired)
      ensures old(present && retired && identity == expected && !Readable(saved)) ==> removal.Jammed? && At() == old(At())
      ensures old(Removable(expected)) ==> removal.Removed? || removal.Unfinished?
      ensures old(Removable(expected) && stats.Enough(budget, Remaining())) ==> removal.Removed?
      ensures stats.ticks <= old(stats.ticks)
      ensures old(present && identity == expected && Readable(saved) && stats.Roomy(budget)) ==>
        removal.Removed? || stats.mutations > old(stats.mutations) || exists c :: Refuses(old(At()), c)
    {
      WorkIsLeft(At());
      if !present {
        return Removed;
      }
      if !retired {
        if identity != expected {
          return IdentityChanged;
        }
        var available := stats.Available(budget, 2);
        if !available {
          return Unfinished;
        }
        retired := true;
        stats.mutations := stats.mutations + 2;
      }
      if identity != expected {
        return IdentityChanged;
      }
      removal := EmptyAndRemove(stats, budget);
    }

    // Sweep after sweep, each with fresh counters and a budget that has room for the dearest
    // turn: the workspace goes, after a bounded number of sweeps, and the mutations of all of
    // them together are exactly those that its files and directories take.
    method CleanAway(expected: nat, budget: Budget, ticks: nat) returns (sweeps: nat, total: nat)
      requires Valid() && present && identity == expected && AllReadable(tree) && AllWritable(tree)
      requires budget.maxMutations >= 4 && budget.maxEntries > 0 && budget.maxDirectories > 0 && ticks >= 2
      modifies `present, `retired, `tree, `saved
      ensures !present && total == old(Remaining()) && 2 * sweeps <= total + 2
    {
      sweeps, total := 0, 0;
      while present
        invariant Valid() && AllReadable(tree) && AllWritable(tree)
        invariant total + Remaining() == old(Remaining()) && 2 * sweeps <= total + (if present then 0 else 2)
        decreases present, Remaining()
      {
        var stats := new Stats(ticks);
        assert saved != [] ==> HasDirectory(tree, saved);
        ghost var before := Remaining();
        var removal := Cleanup(expected, stats, budget);
        if present {
          WorkIsLeft(At());
        }
        sweeps, total := sweeps + 1, total + stats.mutations;
      }
    }
  }

  // What a look at a queue record finds: whether it is well formed, whose it is, the identity it
  // was written for, the directory that now has its name, and when that was last modified.
  datatype Item = Item(wellFormed: bool, execution: nat, source: Option<nat>, place: Workspace, modified: nat)

  datatype Peeked = Peeked(item: Option<Item>, inspected: nat)

  function Reserved(budget: Budget): Budget {
    budget.(maxMutations := if budget.maxMutations < 11 then 1 else budget.maxMutations - 10)
  }

  // The directory is there, of the recorded identity, of no running execution, and old enough.
  ghost predicate Abandoned(item: Item, active: set<nat>, cutoff: nat)
    reads item.place
  {
    IsAbandoned(item, active, cutoff, item.place.Seen())
  }

  ghost predicate IsAbandoned(item: Item, active: set<nat>, cutoff: nat, w: Shot) {
    && item.wellFormed && item.execution !in active && w.present
    && item.source == Some(item.place.identity) && item.modified <= cutoff
  }

  // What giving the record back, or taking it away, costs.
  function RecordCost(d: Decision): nat {
    match d case Hold => 10 case Defer => 10 case Drop => 5 case Fail => 0
  }

  // Nothing is known of it, or the directory has the name without a record of its identity: held.
  // It runs, or was modified too recently: deferred.  It is gone, or another one: dropped, but a
  // retired one of another identity is an error.  These leave the directory as it is.
  ghost predicate LeftAlone(item: Item, active: set<nat>, cutoff: nat, w: Shot, d: Decision) {
    var other := item.source.Some? && item.source.value != item.place.identity;
    if !item.wellFormed then d.Hold?
    else if item.execution in active then d.Defer?
    else if !w.present then d.Drop?
    else if other then (if w.retired then d.Fail? else d.Drop?)
    else if item.source.None? then d.Hold?
    else d.Defer?
  }

  // An abandoned one loses exactly the work that is spent on it; it is dropped exactly when it is
  // gone, which it is if time and budget allow; an error has a position as its cause.
  ghost predicate WorkedOn(item: Item, w: Shot, t: Tally, w': Shot, t': Tally, d: Decision, budget: Budget) {
    && !d.Hold? && (d.Drop? <==> !w'.present)
    && t'.mutations + Left(w') == t.mutations + Left(w) + RecordCost(d)
    && (d.Fail? ==> !Readable(w.at.stack) || !AllWritable(w.at.tree))
    && (Readable(w.at.stack) && AllWritable(w.at.tree) && t.Allows(Reserved(budget), Left(w)) ==> d.Drop?)
  }

  // One look at a record, from what there was to what there is.
  ghost predicate Examined(item: Item, active: set<nat>, cutoff: nat, budget: Budget, w: Shot, t: Tally, w': Shot, t': Tally, d: Decision) {
    && t'.examined == t.examined && t'.ticks <= t.ticks
    && if IsAbandoned(item, active, cutoff, w) then WorkedOn(item, w, t, w', t', d, budget)
       else w' == w && LeftAlone(item, active, cutoff, w, d) && t' == t.(mutations := t.mutations + RecordCost(d))
  }

  // A retired workspace whose deletion has come to a directory below the root that is empty.
  ghost predicate InEmptyDirectory(place: Workspace)
    reads place
  {
    place.retired && place.saved != [] && Readable(place.saved) && Children(place.tree, place.saved) == {}
  }

  // The reserve for giving the record back is kept free.  With it, an empty directory is removed
  // only if fourteen mutations are left when the record is looked at: under a smaller budget
  // every sweep retires workspaces and unlinks files but never gets past an empty directory.
  method Examine(item: Item, active: set<nat>, cutoff: nat, stats: Stats, budget: Budget) returns (decision: Decision)
    requires item.place.Valid() && stats.mutations + 10 <= budget.maxMutations
    modifies item.place`present, item.place`retired, item.place`tree, item.place`saved
    modifies stats`directories, stats`entries, stats`mutations, stats`ticks
    ensures item.place.Valid() && old(stats.mutations) <= stats.mutations <= budget.maxMutations
    ensures stats.directories <= Max(old(stats.directories), budget.maxDirectories)
    ensures stats.entries <= Max(old(stats.entries), budget.maxEntries)
    ensures Examined(item, active, cutoff, budget, old(item.place.Seen()), old(stats.Now()), item.place.Seen(), stats.Now(), decision)
    ensures old(Abandoned(item, active, cutoff) && InEmptyDirectory(item.place) && stats.ticks >= 2
                && stats.directories < budget.maxDirectories && stats.entries < budget.maxEntries)
      ==> (item.place.At() != old(item.place.At()) <==> old(stats.mutations) + 14 <= budget.maxMutations)
  {
    if !item.wellFormed {
      stats.mutations := stats.mutations + 10;
      return Hold;
    }
    if item.execution in active {
      stats.mutations := stats.mutations + 10;
      return Defer;
    }
    var place := item.place;
    if place.present && place.retired && item.source.Some? && item.source.value != place.identity {
      return Fail;
    }
    if !place.present || (item.source.Some? && item.source.value != place.identity) {
      stats.mutations := stats.mutations + 5;
      return Drop;
    }
    if item.source.None? {
      stats.mutations := stats.mutations + 10;
      return Hold;
    }
    if item.modified > cutoff {
      stats.mutations := stats.mutations + 10;
      return Defer;
    }
    var removal := place.Cleanup(item.source.value, stats, Reserved(budget));
    match removal {
      case Removed =>
        stats.mutations := stats.mutations + 5;
        return Drop;
      case Unfinished =>
        stats.mutations := stats.mutations + 10;
        return Defer;
      case IdentityChanged => return Fail;
      case Jammed => return Fail;
    }
  }

  function Places(peeks: seq<Peeked>): set<Workspace> {
    set p | p in peeks && p.item.Some? :: p.item.value.place
  }

  ghost predicate AllValid(peeks: seq<Peeked>)
    reads Places(peeks)
  {
    forall w :: w in Places(peeks) ==> w.Valid()
  }

  // No record of a running execution names the directory of another one.
  ghost predicate NamedByOwner(peeks: seq<Peeked>) {
    forall i :: 0 <= i < |peeks| && peeks[i].item.Some? && peeks[i].item.value.wellFormed ==>
      peeks[i].item.value.place.execution == peeks[i].item.value.execution
  }

  // ---------------------------------------------------------------- what a whole sweep has looked at

  // A look at a record: what its workspace and the counters were, and what became of them.
  datatype Look = Look(item: Item, w: Shot, t: Tally, w': Shot, t': Tally, decision: Decision)

  // No further record is looked at.
  predicate Out(t: Tally, budget: Budget) {
    t.ticks == 0 || t.examined >= budget.maxEntries || t.mutations + 10 > budget.maxMutations
  }

  // The counters after taking a record from the queue.
  function Inspect(t: Tally, peeked: Peeked, budget: Budget): Tally
    requires !Out(t, budget)
  {
    var left := budget.maxEntries - t.examined;
    t.(ticks := t.ticks - 1, examined := t.examined + if peeked.inspected < left then peeked.inspected else left)
  }

  function TallyAt(start: Tally, looks: seq<Look>): Tally { if |looks| == 0 then start else looks[|looks| - 1].t' }

  predicate Failed(looks: seq<Look>) { |looks| > 0 && looks[|looks| - 1].decision.Fail? }

  // The looks are at the records of the lane, in order, each with the counters the last one left.
  ghost predicate Follows(peeks: seq<Peeked>, active: set<nat>, cutoff: nat, budget: Budget, start: Tally, looks: seq<Look>)
    decreases |looks|
  {
    |looks| == 0
    || (var n := |looks| - 1;
        && n < |peeks| && Follows(peeks, active, cutoff, budget, start, looks[..n]) && !Failed(looks[..n])
        && LooksAt(peeks[n], active, cutoff, budget, TallyAt(start, looks[..n]), looks[n]))
  }

  ghost predicate LooksAt(peeked: Peeked, active: set<nat>, cutoff: nat, budget: Budget, t: Tally, look: Look) {
    && !Out(t, budget) && peeked.item == Some(look.item) && look.t == Inspect(t, peeked, budget)
    && Examined(look.item, active, cutoff, budget, look.w, look.t, look.w', look.t', look.decision)
  }

  // Why the looks at a lane end, and with which counters: a limit was met, an error occurred, the
  // queue had nothing more to hand out, or every record was looked at.
  ghost predicate Ended(peeks: seq<Peeked>, budget: Budget, start: Tally, looks: seq<Look>, exhausted: bool, end: Tally)
    requires |looks| <= |peeks|
  {
    var t := TallyAt(start, looks);
    if Failed(looks) then !exhausted && end == t
    else if |looks| == |peeks| then !exhausted && end == t
    else if Out(t, budget) then exhausted && end == t.(ticks := end.ticks) && end.ticks <= t.ticks
    else !exhausted && peeks[|looks|].item.None? && end == Inspect(t, peeks[|looks|], budget)
  }

  function Decisions(looks: seq<Look>): seq<Decision> {
    if |looks| == 0 then [] else Decisions(looks[..|looks| - 1]) + [looks[|looks| - 1].decision]
  }

  // What the workspaces are like after some looks, having been so before.
  function After(looks: seq<Look>, shots: map<Workspace, Shot>): map<Workspace, Shot> {
    if |looks| == 0 then shots
    else
      var look := looks[|looks| - 1];
      After(looks[..|looks| - 1], shots)[look.item.place := look.w']
  }

  // Each look finds its workspace as the last one left it.
  ghost predicate Continuous(looks: seq<Look>, shots: map<Workspace, Shot>)
    decreases |looks|
  {
    |looks| == 0
    || (var n := |looks| - 1;
        var before := After(looks[..n], shots);
        Continuous(looks[..n], shots) && looks[n].item.place in before && looks[n].w == before[looks[n].item.place])
  }

  // The workspaces are now like that.
  ghost predicate Shows(shots: map<Workspace, Shot>)
    reads shots.Keys
  {
    forall w :: w in shots ==> w.Seen() == shots[w] && Good(shots[w].at)
  }

  // None of the counters is past its limit.
  ghost predicate Within(stats: Stats, budget: Budget)
    reads stats
  {
    && stats.mutations <= budget.maxMutations && stats.directories <= budget.maxDirectories
    && stats.entries <= budget.maxEntries && stats.examined <= budget.maxEntries
  }

  // One record of a lane, if there is time and budget for it and the lane has one.
  method SweepOne(peeks: seq<Peeked>, at: nat, active: set<nat>, cutoff: nat, stats: Stats, budget: Budget, ghost shots: map<Workspace, Shot>)
    returns (decision: Option<Decision>, ghost looked: Option<Look>)
    requires at < |peeks| && Within(stats, budget) && !stats.exhausted
    requires Places(peeks) <= shots.Keys && Shows(shots)
    modifies Places(peeks), stats
    ensures Within(stats, budget)
    ensures stats.exhausted <==> Out(old(stats.Now()), budget)
    ensures looked.Some? <==> decision.Some?
    ensures decision.Some? ==>
      var look := looked.value;
      && LooksAt(peeks[at], active, cutoff, budget, old(stats.Now()), look)
      && decision.value == look.decision && stats.Now() == look.t'
      && look.item.place in shots && look.w == shots[look.item.place] && Shows(shots[look.item.place := look.w'])
    ensures decision.None? ==> Shows(shots)
    ensures decision.None? && stats.exhausted ==> stats.Now() == old(stats.Now()).(ticks := stats.ticks) && stats.ticks <= old(stats.ticks)
    ensures decision.None? && !stats.exhausted ==>
      peeks[at].item.None? && stats.Now() == Inspect(old(stats.Now()), peeks[at], budget)
  {
    var peeked := peeks[at];
    var late := stats.Late();
    if late || stats.examined >= budget.maxEntries || stats.mutations + 10 > budget.maxMutations {
      stats.exhausted := true;
      return None, None;
    }
    var left := budget.maxEntries - stats.examined;
    stats.examined := stats.examined + if peeked.inspected < left then peeked.inspected else left;
    if peeked.item.None? {
      return None, None;
    }
    var item := peeked.item.value;
    assert item.place in Places(peeks);
    ghost var before, t := item.place.Seen(), stats.Now();
    var made := Examine(item, active, cutoff, stats, budget);
    return Some(made), Some(Look(item, before, t, item.place.Seen(), stats.Now(), made));
  }

  // The looks at a lane so far, and that the workspaces are now as they left them.
  ghost predicate Reached(peeks: seq<Peeked>, active: set<nat>, cutoff: nat, budget: Budget, start: Tally, looks: seq<Look>,
                          shots: map<Workspace, Shot>)
  {
    |looks| <= |peeks| && Follows(peeks, active, cutoff, budget, start, looks) && Continuous(looks, shots)
  }

  lemma OneMoreLook(peeks: seq<Peeked>, active: set<nat>, cutoff: nat, budget: Budget, start: Tally, looks: seq<Look>,
                    shots: map<Workspace, Shot>, look: Look)
    requires Reached(peeks, active, cutoff, budget, start, looks, shots) && |looks| < |peeks| && !Failed(looks)
    requires LooksAt(peeks[|looks|], active, cutoff, budget, TallyAt(start, looks), look)
    requires look.item.place in After(looks, shots) && look.w == After(looks, shots)[look.item.place]
    ensures Reached(peeks, active, cutoff, budget, start, looks + [look], shots)
    ensures After(looks + [look], shots) == After(looks, shots)[look.item.place := look.w']
    ensures TallyAt(start, looks + [look]) == look.t'
  {
    assert (looks + [look])[..|looks|] == looks;
  }

  method LookAtNext(peeks: seq<Peeked>, active: set<nat>, cutoff: nat, stats: Stats, budget: Budget, at: nat,
                    ghost start: Tally, ghost looks: seq<Look>, ghost shots: map<Workspace, Shot>)
    returns (decision: Option<Decision>, ghost longer: seq<Look>)
    requires Within(stats, budget) && !stats.exhausted && at == |looks| < |peeks| && !Failed(looks)
    requires Places(peeks) <= After(looks, shots).Keys && Shows(After(looks, shots))
    requires Reached(peeks, active, cutoff, budget, start, looks, shots) && stats.Now() == TallyAt(start, looks)
    modifies Places(peeks), stats
    ensures Within(stats, budget) && Reached(peeks, active, cutoff, budget, start, longer, shots)
    ensures Shows(After(longer, shots)) && After(longer, shots).Keys == After(looks, shots).Keys
    ensures decision.Some? ==>
      |longer| == |looks| + 1 && longer[..|looks|] == looks && longer[|looks|].decision == decision.value
      && stats.Now() == TallyAt(start, longer) && !stats.exhausted
    ensures decision.None? ==> longer == looks && Ended(peeks, budget, start, looks, stats.exhausted, stats.Now())
  {
    ghost var look;
    decision, look := SweepOne(peeks, at, active, cutoff, stats, budget, After(looks, shots));
    longer := looks;
    if decision.Some? {
      OneMoreLook(peeks, active, cutoff, budget, start, looks, shots, look.value);
      longer := looks + [look.value];
    }
  }

  // One lane of the sweep: record after record, until one says to stop.
  method SweepLane(peeks: seq<Peeked>, active: set<nat>, cutoff: nat, stats: Stats, budget: Budget, ghost shots: map<Workspace, Shot>)
    returns (decisions: seq<Decision>, ghost looks: seq<Look>)
    requires Within(stats, budget) && !stats.exhausted && Places(peeks) <= shots.Keys && Shows(shots)
    modifies Places(peeks), stats
    ensures Within(stats, budget) && Shows(After(looks, shots)) && After(looks, shots).Keys == shots.Keys
    ensures Reached(peeks, active, cutoff, budget, old(stats.Now()), looks, shots)
    ensures Ended(peeks, budget, old(stats.Now()), looks, stats.exhausted, stats.Now())
    ensures decisions == Decisions(looks)
  {
    decisions, looks := [], [];
    ghost var start := stats.Now();
    while |decisions| < |peeks|
      invariant |decisions| == |looks| && Within(stats, budget) && !stats.exhausted && !Failed(looks)
      invariant Reached(peeks, active, cutoff, budget, start, looks, shots) && stats.Now() == TallyAt(start, looks)
      invariant After(looks, shots).Keys == shots.Keys && Shows(After(looks, shots))
      invariant decisions == Decisions(looks)
    {
      var decision;
      ghost var longer;
      decision, longer := LookAtNext(peeks, active, cutoff, stats, budget, |decisions|, start, looks, shots);
      looks := longer;
      if decision.None? {
        return;
      }
      decisions := decisions + [decision.value];
      if decision.value.Fail? {
        return;
      }
    }
  }

  lemma {:induction false} RunningUntouched(
    peeks: seq<Peeked>, active: set<nat>, cutoff: nat, budget: Budget, start: Tally, looks: seq<Look>,
    shots: map<Workspace, Shot>, w: Workspace)
    requires NamedByOwner(peeks) && Reached(peeks, active, cutoff, budget, start, looks, shots)
    requires w in shots && w.execution in active
    ensures w in After(looks, shots) && After(looks, shots)[w] == shots[w]
    decreases |looks|
  {
    if |looks| > 0 {
      RunningUntouched(peeks, active, cutoff, budget, start, looks[..|looks| - 1], shots, w);
    }
  }

  // Once gone, a workspace is not looked into again.
  lemma {:induction false} GoneStays(
    peeks: seq<Peeked>, active: set<nat>, cutoff: nat, budget: Budget, start: Tally, looks: seq<Look>,
    shots: map<Workspace, Shot>, w: Workspace)
    requires Reached(peeks, active, cutoff, budget, start, looks, shots) && w in shots && !shots[w].present
    ensures w in After(looks, shots) && !After(looks, shots)[w].present
    decreases |looks|
  {
    if |looks| > 0 {
      GoneStays(peeks, active, cutoff, budget, start, looks[..|looks| - 1], shots, w);
    }
  }

  // An abandoned workspace that can be read and written, looked at with time and budget for all
  // that removing it takes, is gone after the sweep.
  ghost predicate Removable(look: Look, active: set<nat>, cutoff: nat, budget: Budget) {
    && IsAbandoned(look.item, active, cutoff, look.w)
    && Readable(look.w.at.stack) && AllWritable(look.w.at.tree) && look.t.Allows(Reserved(budget), Left(look.w))
  }

  lemma {:induction false} RemovableGoes(
    peeks: seq<Peeked>, active: set<nat>, cutoff: nat, budget: Budget, start: Tally, looks: seq<Look>,
    shots: map<Workspace, Shot>, i: nat)
    requires Reached(peeks, active, cutoff, budget, start, looks, shots) && i < |looks|
    requires Removable(looks[i], active, cutoff, budget)
    ensures looks[i].item.place in After(looks, shots) && !After(looks, shots)[looks[i].item.place].present
    ensures looks[i].decision.Drop?
    decreases |looks|
  {
    var n := |looks| - 1;
    if i < n {
      RemovableGoes(peeks, active, cutoff, budget, start, looks[..n], shots, i);
    }
  }

  // What it spends on an abandoned one is exactly what its remaining work falls by.
  lemma {:induction false} WorkFalls(
    peeks: seq<Peeked>, active: set<nat>, cutoff: nat, budget: Budget, start: Tally, looks: seq<Look>,
    shots: map<Workspace, Shot>, i: nat)
    requires Reached(peeks, active, cutoff, budget, start, looks, shots) && i < |looks|
    requires IsAbandoned(looks[i].item, active, cutoff, looks[i].w)
    ensures Left(looks[i].w') == Left(looks[i].w) - (looks[i].t'.mutations - looks[i].t.mutations - RecordCost(looks[i].decision))
    decreases |looks|
  {
    var n := |looks| - 1;
    if i < n {
      WorkFalls(peeks, active, cutoff, budget, start, looks[..n], shots, i);
    }
  }

  lemma PlacesOfBoth(ready: seq<Peeked>, deferred: seq<Peeked>)
    ensures Places(ready + deferred) == Places(ready) + Places(deferred)
  {
  }

  lemma BothAreNamed(ready: seq<Peeked>, deferred: seq<Peeked>)
    requires NamedByOwner(ready + deferred)
    ensures NamedByOwner(ready) && NamedByOwner(deferred)
  {
    var all := ready + deferred;
    assert forall i :: 0 <= i < |ready| ==> all[i] == ready[i];
    assert forall i :: 0 <= i < |deferred| ==> all[|ready| + i] == deferred[i];
  }

  // How the two lanes of a sweep went.
  ghost predicate Swept(
    ready: seq<Peeked>, deferred: seq<Peeked>, active: set<nat>, cutoff: nat, ticks: nat, budget: Budget,
    shots: map<Workspace, Shot>, looks: seq<Look>, later: seq<Look>, exhausted: bool, middle: Tally, end: Tally)
  {
    var start := Tally(0, 0, 0, 0, ticks);
    var goesOn := !Failed(looks) && |looks| <= |ready| && !(Out(TallyAt(start, looks), budget) && |looks| < |ready|);
    && Reached(ready, active, cutoff, budget, start, looks, shots)
    && Ended(ready, budget, start, looks, exhausted && !goesOn, middle)
    && (if goesOn then
          && Reached(deferred, active, cutoff, budget, middle, later, After(looks, shots))
          && Ended(deferred, budget, middle, later, exhausted, end)
        else later == [] && end == middle)
  }

  // The workspaces after both lanes.
  function AfterBoth(looks: seq<Look>, later: seq<Look>, shots: map<Workspace, Shot>): map<Workspace, Shot> {
    After(later, After(looks, shots))
  }

  // The workspaces of running executions are as they were.
  ghost predicate Untouched(shots: map<Workspace, Shot>, now: map<Workspace, Shot>, active: set<nat>) {
    forall w :: w in shots && w.execution in active ==> w in now && now[w] == shots[w]
  }

  // What could be removed is gone, and its record dropped.
  ghost predicate AllGone(looks: seq<Look>, now: map<Workspace, Shot>, active: set<nat>, cutoff: nat, budget: Budget) {
    forall i :: 0 <= i < |looks| && Removable(looks[i], active, cutoff, budget) ==>
      looks[i].item.place in now && !now[looks[i].item.place].present && looks[i].decision.Drop?
  }

  lemma SweptMeans(
    ready: seq<Peeked>, deferred: seq<Peeked>, active: set<nat>, cutoff: nat, ticks: nat, budget: Budget,
    shots: map<Workspace, Shot>, looks: seq<Look>, later: seq<Look>, exhausted: bool, middle: Tally, end: Tally)
    requires Swept(ready, deferred, active, cutoff, ticks, budget, shots, looks, later, exhausted, middle, end)
    requires NamedByOwner(ready) && NamedByOwner(deferred)
    ensures Untouched(shots, AfterBoth(looks, later, shots), active)
    ensures AllGone(looks, AfterBoth(looks, later, shots), active, cutoff, budget)
    ensures AllGone(later, AfterBoth(looks, later, shots), active, cutoff, budget)
  {
    var start, between := Tally(0, 0, 0, 0, ticks), After(looks, shots);
    forall w | w in shots && w.execution in active
      ensures w in After(later, between) && After(later, between)[w] == shots[w]
    {
      RunningUntouched(ready, active, cutoff, budget, start, looks, shots, w);
      if later != [] {
        RunningUntouched(deferred, active, cutoff, budget, middle, later, between, w);
      }
    }
    forall i | 0 <= i < |looks| && Removable(looks[i], active, cutoff, budget)
      ensures looks[i].item.place in After(later, between) && !After(later, between)[looks[i].item.place].present
      ensures looks[i].decision.Drop?
    {
      RemovableGoes(ready, active, cutoff, budget, start, looks, shots, i);
      if later != [] {
        GoneStays(deferred, active, cutoff, budget, middle, later, between, looks[i].item.place);
      }
    }
    forall i | 0 <= i < |later| && Removable(later[i], active, cutoff, budget)
      ensures later[i].item.place in After(later, between) && !After(later, between)[later[i].item.place].present
      ensures later[i].decision.Drop?
    {
      RemovableGoes(deferred, active, cutoff, budget, middle, later, between, i);
    }
  }

  lemma LastDecision(looks: seq<Look>)
    ensures |Decisions(looks)| == |looks|
    ensures Failed(looks) <==> |looks| > 0 && Decisions(looks)[|looks| - 1].Fail?
  {
    if |looks| > 0 {
      LastDecision(looks[..|looks| - 1]);
    }
  }

  // Both lanes, the second only if nothing in the first ended the sweep.
  method SweepLanes(ready: seq<Peeked>, deferred: seq<Peeked>, active: set<nat>, cutoff: nat, stats: Stats, budget: Budget,
                    ghost shots: map<Workspace, Shot>)
    returns (first: seq<Decision>, second: seq<Decision>, ghost looks: seq<Look>, ghost later: seq<Look>, ghost middle: Tally)
    requires stats.Now() == Tally(0, 0, 0, 0, stats.ticks) && !stats.exhausted
    requires Places(ready) <= shots.Keys && Places(deferred) <= shots.Keys && Shows(shots)
    modifies Places(ready), Places(deferred), stats
    ensures Within(stats, budget)
    ensures Swept(ready, deferred, active, cutoff, old(stats.ticks), budget, shots, looks, later, stats.exhausted, middle, stats.Now())
    ensures first == Decisions(looks) && second == Decisions(later)
    ensures Shows(After(later, After(looks, shots))) && After(later, After(looks, shots)).Keys == shots.Keys
  {
    first, looks := SweepLane(ready, active, cutoff, stats, budget, shots);
    middle, second, later := stats.Now(), [], [];
    LastDecision(looks);
    if !stats.exhausted && (|first| == 0 || !first[|first| - 1].Fail?) {
      second, later := SweepLane(deferred, active, cutoff, stats, budget, After(looks, shots));
    }
  }

  // The workspaces as they are.
  ghost function Shots(peeks: seq<Peeked>): map<Workspace, Shot>
    reads Places(peeks)
  {
    map w | w in Places(peeks) :: w.Seen()
  }

  lemma ShowsItself(peeks: seq<Peeked>)
    requires AllValid(peeks)
    ensures Shows(Shots(peeks)) && Shots(peeks).Keys == Places(peeks)
  {
  }

  lemma ShowsThese(peeks: seq<Peeked>, shots: map<Workspace, Shot>)
    requires Shows(shots) && shots.Keys == Places(peeks)
    ensures Shots(peeks) == shots && AllValid(peeks)
  {
  }

  // The sweep: the ready lane, then what is due in the deferred lane.  The looks are at its records
  // in order, and end only at a limit, at an error or with the records; it stays within all of its
  // budgets and never touches the workspace of a running execution.  Every workspace is left as the
  // looks say, and one that could be removed is gone.
  method Sweep(ready: seq<Peeked>, deferred: seq<Peeked>, active: set<nat>, cutoff: nat, ticks: nat, budget: Budget)
    returns (stats: Stats, first: seq<Decision>, second: seq<Decision>,
             ghost looks: seq<Look>, ghost later: seq<Look>, ghost middle: Tally)
    requires AllValid(ready + deferred) && NamedByOwner(ready + deferred)
    modifies Places(ready + deferred)
    ensures fresh(stats) && Within(stats, budget) && first == Decisions(looks) && second == Decisions(later)
    ensures Swept(ready, deferred, active, cutoff, ticks, budget, old(Shots(ready + deferred)), looks, later, stats.exhausted, middle, stats.Now())
    ensures Shots(ready + deferred) == AfterBoth(looks, later, old(Shots(ready + deferred))) && AllValid(ready + deferred)
    ensures Untouched(old(Shots(ready + deferred)), Shots(ready + deferred), active)
    ensures AllGone(looks, Shots(ready + deferred), active, cutoff, budget)
    ensures AllGone(later, Shots(ready + deferred), active, cutoff, budget)
  {
    stats := new Stats(ticks);
    ghost var all, shots := ready + deferred, Shots(ready + deferred);
    PlacesOfBoth(ready, deferred);
    BothAreNamed(ready, deferred);
    ShowsItself(all);
    first, second, looks, later, middle := SweepLanes(ready, deferred, active, cutoff, stats, budget, shots);
    ShowsThese(all, AfterBoth(looks, later, shots));
    SweptMeans(ready, deferred, active, cutoff, ticks, budget, shots, looks, later, stats.exhausted, middle, stats.Now());
  }
}
