/**
  Deleting an object only if it is still the one that was examined: it is renamed into a
  quarantine directory, examined again there and unlinked.  A sweep restores or holds what an
  interrupted delete left behind.

  The state keeps what the original name holds, the quarantine directory of one delete, the
  durable queue record of it, and where every inode that left the scene went.
 */
module Quarantine {
  import opened Options
  import L = Leases
  import P = Publication

  datatype Inode = Inode(size: nat, mtime: nat)

  // The object as it was when it was opened and hashed.
  datatype Seen = Seen(ino: nat, inode: Inode)

  datatype Meta = Meta(seen: Seen, created: nat, owner: Option<L.Id>, artifact: Option<L.ArtifactKey>, conflict: bool)

  datatype Room = Room(meta: Option<Meta>, original: Option<nat>, candidate: Option<nat>)

  datatype State = State(
    here: Option<nat>, inodes: map<nat, Inode>, room: Option<Room>, record: bool,
    deleted: set<nat>, taken: set<nat>, pc: nat, running: bool)

  datatype Job = Job(seen: Seen, created: nat, owner: Option<L.Id>, artifact: Option<L.ArtifactKey>)

  function NewMeta(j: Job): Meta { Meta(j.seen, j.created, j.owner, j.artifact, false) }

  predicate Matches(s: State, ino: nat, seen: Seen) {
    ino == seen.ino && ino in s.inodes && s.inodes[ino] == seen.inode
  }

  // ---------------------------------------------------------------- the delete, step by step

  const DONE_STEP := 8

  function Delete(j: Job, s: State): State {
    if !s.running then s
    else if s.pc == 0 then s.(record := true, pc := 1)
    else if s.pc == 1 then s.(room := Some(Room(None, None, None)), pc := 2)
    else if s.room.None? && s.pc < 7 then s.(running := false)
    else if s.pc == 2 then s.(room := Some(s.room.value.(meta := Some(NewMeta(j)))), pc := 3)
    else if s.pc == 3 then
      if s.here.None? then s.(pc := 6)
      else s.(here := None, room := Some(s.room.value.(original := s.here)), pc := 4)
    else if s.pc == 4 then
      s.(room := Some(s.room.value.(original := None, candidate := s.room.value.original)), pc := 5)
    else if s.pc == 5 then
      if s.room.value.candidate.Some? && Matches(s, s.room.value.candidate.value, j.seen) then
        s.(room := Some(s.room.value.(candidate := None)), deleted := s.deleted + {s.room.value.candidate.value}, pc := 6)
      else s.(running := false)
    else if s.pc == 6 then s.(room := None, pc := 7)
    else if s.pc == 7 then s.(record := false, pc := DONE_STEP)
    else s
  }

  // A sweep that comes to its end drops the record exactly if it reports done; one that is cut off
  // before keeps it.
  lemma SweepDropsIff(s: State, view: P.View, stop: nat)
    requires s.record
    ensures !Sweep(s, view, stop).record <==> stop > |Recover(s, view).ops| && Recover(s, view).outcome == P.Done
    ensures Recover(s, view).outcome == P.Done && stop > |Recover(s, view).ops| ==> Sweep(s, view, stop).room.None?
  {
    SweepEffect(s, view, stop);
    DoAllKeepsRecord(s, Recover(s, view).ops[..Min(stop, |Recover(s, view).ops|)]);
  }

  lemma {:induction false} DoAllKeepsRecord(s: State, ops: seq<Op>)
    ensures DoAll(s, ops).record == s.record
    decreases |ops|
  {
    if |ops| > 0 {
      DoAllKeepsRecord(Do(s, ops[0]), ops[1..]);
    }
  }

  // The runs leave others free: to put a new object where none is, to take away what is there, to
  // rewrite any object, and to sweep a record whenever no delete is at work on it.
  lemma OthersAreFree(j: Job, s: State, ino: nat, inode: Inode, view: P.View, stop: nat)
    ensures s.here.None? && ino !in s.inodes ==> Happen(j, s, Arrive(ino, inode)).here == Some(ino)
    ensures Happen(j, s, Take).here.None?
    ensures ino in s.inodes ==> Happen(j, s, Rewrite(ino, inode)).inodes == s.inodes[ino := inode]
    ensures s.record && !s.running ==> Happen(j, s, SweepRecord(view, stop)) == Sweep(s, view, stop)
    ensures !Happen(j, s, Event.Fail).running && !Happen(j, s, Crash).running
  {
  }

  // A failure before the object was moved takes the empty directory and the record away again.
  function FailDelete(s: State): State {
    if s.running && 1 <= s.pc <= 3 then s.(room := None, record := false, running := false)
    else s.(running := false)
  }

  // ---------------------------------------------------------------- the sweep of one record

  datatype Op = Isolate | MarkConflict | Restore | DropRoom

  function Do(s: State, op: Op): State {
    if s.room.None? then s
    else
      var room := s.room.value;
      match op
      case Isolate => s.(room := Some(room.(original := None, candidate := room.original)))
      case MarkConflict =>
        if room.meta.None? then s else s.(room := Some(room.(meta := Some(room.meta.value.(conflict := true)))))
      case Restore => s.(here := room.candidate, room := Some(room.(candidate := None)))
      case DropRoom => s.(room := None)
  }

  predicate Protected(m: Meta, view: P.View) {
    || (m.artifact.Some? && P.KeyProtected(m.artifact.value, view))
    || P.ActiveOwner(m.owner, view)
  }

  datatype Verdict = Verdict(ops: seq<Op>, outcome: P.Outcome)

  // What to do once the object is, or has been made, the candidate.
  function Judge(s: State, candidate: nat, m: Meta): Verdict {
    if !Matches(s, candidate, m.seen) || s.here.Some? then Verdict([MarkConflict], P.Held)
    else Verdict([Restore, DropRoom], P.Done)
  }

  function Recover(s: State, view: P.View): Verdict {
    if s.room.None? then Verdict([], P.Done)
    else
      var room := s.room.value;
      if room.meta.None? || room.meta.value.conflict then Verdict([], P.Held)
      else if room.meta.value.created > view.cutoff || Protected(room.meta.value, view) then Verdict([], P.Deferred)
      else if room.candidate.Some? then Judge(s, room.candidate.value, room.meta.value)
      else if room.original.Some? then
        var v := Judge(s, room.original.value, room.meta.value);
        Verdict([Isolate] + v.ops, v.outcome)
      else Verdict([DropRoom], P.Done)
  }

  function DoAll(s: State, ops: seq<Op>): State
    decreases |ops|
  {
    if |ops| == 0 then s else DoAll(Do(s, ops[0]), ops[1..])
  }

  function Min(a: nat, b: nat): nat { if a < b then a else b }

  function Sweep(s: State, view: P.View, stop: nat): State {
    var v := Recover(s, view);
    var swept := DoAll(s, v.ops[..Min(stop, |v.ops|)]);
    if stop > |v.ops| && v.outcome == P.Done then swept.(record := false) else swept
  }

  // ---------------------------------------------------------------- everything that may happen

  // Others may put a new object at the original name, take away what is there, or rewrite an
  // object in place; sweeps run while no delete is under way, and may be cut short.
  datatype Event =
    | Proceed
    | Fail
    | Crash
    | Arrive(ino: nat, inode: Inode)
    | Take
    | Rewrite(ino: nat, inode: Inode)
    | SweepRecord(view: P.View, stop: nat)

  function Happen(j: Job, s: State, e: Event): State {
    match e
    case Proceed => Delete(j, s)
    case Fail => FailDelete(s)
    case Crash => s.(running := false)
    case Arrive(ino, inode) =>
      if s.here.None? && ino !in s.inodes then s.(here := Some(ino), inodes := s.inodes[ino := inode]) else s
    case Take => if s.here.Some? then s.(here := None, taken := s.taken + {s.here.value}) else s
    case Rewrite(ino, inode) => if ino in s.inodes then s.(inodes := s.inodes[ino := inode]) else s
    case SweepRecord(view, stop) =>
      if s.record && (!s.running || s.pc == DONE_STEP) then Sweep(s, view, stop) else s
  }

  function Happened(j: Job, s: State, events: seq<Event>): State
    decreases |events|
  {
    if |events| == 0 then s else Happened(j, Happen(j, s, events[0]), events[1..])
  }

  // ---------------------------------------------------------------- one place each

  function Original(s: State): Option<nat> { if s.room.Some? then s.room.value.original else None }

  function Candidate(s: State): Option<nat> { if s.room.Some? then s.room.value.candidate else None }

  // The number of places an inode is in: its name, the quarantine, the unlinked, the taken.
  function Places(s: State, ino: nat): nat {
    (if s.here == Some(ino) then 1 else 0) + (if Original(s) == Some(ino) then 1 else 0)
    + (if Candidate(s) == Some(ino) then 1 else 0) + (if ino in s.deleted then 1 else 0)
    + (if ino in s.taken then 1 else 0)
  }

  ghost predicate Safe(j: Job, s: State) {
    && (forall ino :: ino in s.inodes ==> Places(s, ino) == 1)
    && (forall ino :: Places(s, ino) > 0 ==> ino in s.inodes)
    && s.deleted <= {j.seen.ino}
    && (s.room.Some? && (Original(s).Some? || Candidate(s).Some?) ==> s.room.value.meta.Some?)
    && (s.room.Some? && s.room.value.meta.Some? ==> s.room.value.meta.value.(conflict := false) == NewMeta(j))
    && !(Original(s).Some? && Candidate(s).Some?)
    && (s.room.Some? ==> s.record)
    && (s.running && s.pc < DONE_STEP ==>
          && (s.pc == 0 ==> s.room.None?)
          && (s.pc >= 1 ==> s.record)
          && (s.pc == 1 || s.pc == 7 ==> s.room.None?)
          && (2 <= s.pc <= 6 ==> s.room.Some?)
          && (s.pc >= 3 && s.room.Some? ==> s.room.value.meta.Some?)
          && (Original(s).Some? <==> s.pc == 4)
          && (Candidate(s).Some? <==> s.pc == 5))
  }

  lemma DeleteKeeps(j: Job, s: State)
    requires Safe(j, s)
    ensures Safe(j, Delete(j, s))
  {
    var s' := Delete(j, s);
    forall ino: nat
      ensures Places(s', ino) == Places(s, ino)
    {
      assert ino in s.inodes ==> Places(s, ino) == 1;
    }
  }

  // The operations of a sweep are only ever applied where they lose nothing.
  ghost predicate Allowed(s: State, op: Op) {
    && s.room.Some?
    && match op
       case Isolate => Candidate(s).None?
       case MarkConflict => true
       case Restore => s.here.None?
       case DropRoom => Original(s).None? && Candidate(s).None?
  }

  lemma DoKeeps(j: Job, s: State, op: Op)
    requires Safe(j, s) && Allowed(s, op) && (!s.running || s.pc == DONE_STEP)
    ensures Safe(j, Do(s, op)) && Do(s, op).running == s.running && Do(s, op).pc == s.pc && Do(s, op).record == s.record
    ensures Do(s, op).deleted == s.deleted && Do(s, op).inodes == s.inodes && Do(s, op).taken == s.taken
  {
    var s' := Do(s, op);
    forall ino: nat
      ensures Places(s', ino) == Places(s, ino)
    {
    }
  }

  ghost predicate AllAllowed(s: State, ops: seq<Op>)
    decreases |ops|
  {
    |ops| == 0 || (Allowed(s, ops[0]) && AllAllowed(Do(s, ops[0]), ops[1..]))
  }

  lemma {:induction false} DoAllKeeps(j: Job, s: State, ops: seq<Op>, n: nat)
    requires Safe(j, s) && AllAllowed(s, ops) && n <= |ops| && (!s.running || s.pc == DONE_STEP)
    ensures Safe(j, DoAll(s, ops[..n])) && DoAll(s, ops[..n]).record == s.record
    ensures DoAll(s, ops[..n]).deleted == s.deleted && DoAll(s, ops[..n]).inodes == s.inodes && DoAll(s, ops[..n]).taken == s.taken
    decreases n
  {
    if n > 0 {
      DoKeeps(j, s, ops[0]);
      DoAllKeeps(j, Do(s, ops[0]), ops[1..], n - 1);
      assert ops[..n][1..] == ops[1..][..n - 1];
    }
  }

  lemma RecoveryAllowed(j: Job, s: State, view: P.View)
    requires Safe(j, s)
    ensures AllAllowed(s, Recover(s, view).ops)
  {
    var ops := Recover(s, view).ops;
    if |ops| == 3 {
      var isolated := Do(s, ops[0]);
      var restored := Do(isolated, ops[1..][0]);
      assert ops[1..][1..] == [DropRoom];
      assert AllAllowed(restored, [DropRoom]);
      assert AllAllowed(isolated, ops[1..]);
    } else if |ops| == 2 {
      assert ops[1..] == [ops[1]];
      assert AllAllowed(Do(s, ops[0]), [ops[1]]);
    }
  }

  lemma SweepKeeps(j: Job, s: State, view: P.View, stop: nat)
    requires Safe(j, s) && s.record && (!s.running || s.pc == DONE_STEP)
    ensures Safe(j, Sweep(s, view, stop))
    ensures Sweep(s, view, stop).deleted == s.deleted && Sweep(s, view, stop).taken == s.taken
    ensures Sweep(s, view, stop).inodes == s.inodes
  {
    var v := Recover(s, view);
    RecoveryAllowed(j, s, view);
    DoAllKeeps(j, s, v.ops, Min(stop, |v.ops|));
    SweepEffect(s, view, stop);
  }

  lemma DoFew(s: State, ops: seq<Op>)
    requires |ops| <= 3
    ensures DoAll(s, ops)
      == if |ops| == 0 then s
         else if |ops| == 1 then Do(s, ops[0])
         else if |ops| == 2 then Do(Do(s, ops[0]), ops[1])
         else Do(Do(Do(s, ops[0]), ops[1]), ops[2])
  {
    if |ops| > 0 {
      var s1, r1 := Do(s, ops[0]), ops[1..];
      assert DoAll(s, ops) == DoAll(s1, r1);
      if |r1| > 0 {
        var s2, r2 := Do(s1, r1[0]), r1[1..];
        assert DoAll(s1, r1) == DoAll(s2, r2);
        if |r2| > 0 {
          assert DoAll(s2, r2) == DoAll(Do(s2, r2[0]), r2[1..]) && |r2[1..]| == 0;
        }
      }
    }
  }

  // The four ways a sweep's operations can go, written out.
  lemma SweepEffect(s: State, view: P.View, stop: nat)
    ensures var ops := Recover(s, view).ops;
      var done := DoAll(s, ops[..Min(stop, |ops|)]);
      && (|ops| == 0 || stop == 0 ==> done == s)
      && (|ops| >= 1 && stop >= 1 ==>
            done == (if |ops| == 1 || stop == 1 then Do(s, ops[0])
                     else if |ops| == 2 || stop == 2 then Do(Do(s, ops[0]), ops[1])
                     else Do(Do(Do(s, ops[0]), ops[1]), ops[2])))
      && (Recover(s, view).outcome == P.Done && s.room.Some? ==> ops != [] && ops[|ops| - 1] == DropRoom)
  {
    var ops := Recover(s, view).ops;
    DoFew(s, ops[..Min(stop, |ops|)]);
  }

  // No object is forgotten, and what was unlinked or taken stays so.
  ghost predicate Remembers(s: State, t: State) {
    s.inodes.Keys <= t.inodes.Keys && s.deleted <= t.deleted && s.taken <= t.taken
  }

  lemma HappenKeeps(j: Job, s: State, e: Event)
    requires Safe(j, s)
    ensures Safe(j, Happen(j, s, e)) && Remembers(s, Happen(j, s, e))
  {
    match e
    case Proceed => DeleteKeeps(j, s);
    case SweepRecord(view, stop) => if s.record && (!s.running || s.pc == DONE_STEP) { SweepKeeps(j, s, view, stop); }
    case Arrive(ino, inode) => ArriveKeeps(j, s, ino, inode);
    case _ => LeaveKeeps(j, s, e);
  }

  lemma ArriveKeeps(j: Job, s: State, ino: nat, inode: Inode)
    requires Safe(j, s)
    ensures Safe(j, Happen(j, s, Arrive(ino, inode)))
  {
    var s' := Happen(j, s, Arrive(ino, inode));
    assert Places(s, ino) > 0 ==> ino in s.inodes;
    forall i: nat
      ensures Places(s', i) == Places(s, i) + (if s' != s && i == ino then 1 else 0)
    {
    }
  }

  lemma LeaveKeeps(j: Job, s: State, e: Event)
    requires Safe(j, s) && (e.Fail? || e.Crash? || e.Take? || e.Rewrite?)
    ensures Safe(j, Happen(j, s, e))
  {
    var s' := Happen(j, s, e);
    forall i: nat
      ensures Places(s', i) == Places(s, i)
    {
      assert i in s.inodes ==> Places(s, i) == 1;
    }
  }

  // Before anything happened: one object at most, and nothing in quarantine.
  ghost predicate Start(j: Job, s: State) {
    && s.room.None? && s.deleted == {} && s.taken == {} && s.pc == 0 && s.running && !s.record
    && s.inodes.Keys == (if s.here.Some? then {s.here.value} else {})
  }

  lemma {:induction false} RunsAreSafe(j: Job, s: State, events: seq<Event>)
    requires Safe(j, s)
    ensures Safe(j, Happened(j, s, events)) && Remembers(s, Happened(j, s, events))
    decreases |events|
  {
    if |events| > 0 {
      HappenKeeps(j, s, events[0]);
      RunsAreSafe(j, Happen(j, s, events[0]), events[1..]);
    }
  }

  // Interrupt the delete anywhere, sweep any number of times, let others come and go: every
  // object ever seen is in exactly one place, and the only one unlinked is the one examined.
  lemma ExactlyOnePlace(j: Job, s: State, events: seq<Event>, ino: nat)
    requires Start(j, s)
    ensures var t := Happened(j, s, events);
      && (ino in t.inodes ==> Places(t, ino) == 1)
      && (ino in t.deleted ==> ino == j.seen.ino)
  {
    RunsAreSafe(j, s, events);
  }

  // It is unlinked only by the delete itself, on finding it as it was when it was examined.
  lemma UnlinkedOnlyWhenUnchanged(j: Job, s: State, e: Event)
    requires Safe(j, s)
    ensures Happen(j, s, e).deleted != s.deleted ==>
      && e.Proceed? && s.pc == 5 && Candidate(s) == Some(j.seen.ino)
      && j.seen.ino in s.inodes && s.inodes[j.seen.ino] == j.seen.inode
  {
    if e.SweepRecord? && s.record && (!s.running || s.pc == DONE_STEP) {
      SweepKeeps(j, s, e.view, e.stop);
    }
  }

  lemma StepLeavesNewerObject(j: Job, s: State, e: Event)
    requires s.here.Some? && (!s.running || s.pc >= 4) && !e.Take?
    ensures var t := Happen(j, s, e); t.here == s.here && (!t.running || t.pc >= 4)
  {
    if e.SweepRecord? && s.record && (!s.running || s.pc == DONE_STEP) {
      SweepEffect(s, e.view, e.stop);
    }
  }

  // Whatever stands at the original name once the object was moved away, or once the delete
  // stopped, stays there until somebody else takes it: no restore overwrites it.
  lemma {:induction false} NewerObjectStays(j: Job, s: State, events: seq<Event>)
    requires Safe(j, s) && s.here.Some? && (!s.running || s.pc >= 4)
    requires Take !in events
    ensures Happened(j, s, events).here == s.here
    decreases |events|
  {
    if |events| > 0 {
      StepLeavesNewerObject(j, s, events[0]);
      HappenKeeps(j, s, events[0]);
      NewerObjectStays(j, Happen(j, s, events[0]), events[1..]);
    }
  }

  // ---------------------------------------------------------------- what a sweep makes of a stopped delete

  // With the record old and unprotected, one whole sweep of a stopped delete puts the object
  // back and clears the quarantine exactly when it is still the examined one, its name is free
  // and no conflict was noted; otherwise the object stays in quarantine, held.  A quarantine
  // directory stopped before its metadata was written is held, empty; any other empty one goes.
  lemma SweepOfStopped(j: Job, s: State, view: P.View)
    requires Safe(j, s) && !s.running && s.record
    requires s.room.Some? && s.room.value.meta.Some? ==>
      j.created <= view.cutoff && !Protected(s.room.value.meta.value, view)
    ensures var t := Sweep(s, view, 4);
      var moved := if Candidate(s).Some? then Candidate(s) else Original(s);
      if moved.Some? then
        if !s.room.value.meta.value.conflict && s.here.None? && Matches(s, moved.value, j.seen) then
          Recover(s, view).outcome == P.Done && t == s.(here := moved, room := None, record := false)
        else
          Recover(s, view).outcome == P.Held && t.here == s.here && t.record
          && (Candidate(t) == moved || Original(t) == moved) && t.room.Some?
          && t.room.value.meta.Some? && t.room.value.meta.value.conflict
      else if s.room.Some? && (s.room.value.meta.None? || s.room.value.meta.value.conflict) then
        Recover(s, view).outcome == P.Held && t == s
      else
        Recover(s, view).outcome == P.Done && t == s.(room := None, record := false)
  {
    SweepEffect(s, view, 4);
  }

  // The record is new, its key referred to, its build seen running, or its owner active.
  predicate MustWait(j: Job, view: P.View) {
    || j.created > view.cutoff
    || (j.artifact.Some? && j.artifact.value in view.referenced)
    || (j.artifact.Some? && j.artifact.value.owner.Some?
        && (j.artifact.value.task, j.artifact.value.owner.value) in view.builds)
    || (j.owner.Some? && j.owner.value in view.executions)
  }

  // A sweep defers exactly the record with metadata, without a conflict mark, that must wait; it
  // holds exactly one without metadata, with the mark, or whose object is not the examined one or
  // has its name taken.
  lemma OutcomeIs(j: Job, s: State, view: P.View)
    requires Safe(j, s)
    ensures var outcome := Recover(s, view).outcome;
      var known := s.room.Some? && s.room.value.meta.Some? && !s.room.value.meta.value.conflict;
      var moved := if Candidate(s).Some? then Candidate(s) else Original(s);
      && (outcome == P.Deferred <==> known && MustWait(j, view))
      && (outcome == P.Held <==>
            || (s.room.Some? && !known)
            || (known && !MustWait(j, view) && moved.Some? && (s.here.Some? || !Matches(s, moved.value, j.seen))))
  {
  }

  // Wherever it is cut off, the sweep of a record that must wait, or has the mark, leaves everything
  // as it is.
  lemma DeferredIsUntouched(j: Job, s: State, view: P.View, stop: nat)
    requires Safe(j, s) && s.room.Some? && s.room.value.meta.Some?
    requires s.room.value.meta.value.conflict || MustWait(j, view)
    ensures Sweep(s, view, stop) == s
    ensures Recover(s, view).outcome == if s.room.value.meta.value.conflict then P.Held else P.Deferred
  {
    assert Recover(s, view).ops == [];
    assert DoAll(s, []) == s;
  }

  // A stopped delete whose record must wait, or is held for a conflict, at every sweep keeps its
  // object in quarantine, and the name as others leave it, through any such run.
  lemma {:induction false} WaitingStays(j: Job, s: State, events: seq<Event>)
    requires Safe(j, s) && !s.running && s.record && s.room.Some? && s.room.value.meta.Some?
    requires forall e :: e in events && e.SweepRecord? ==> MustWait(j, e.view)
    ensures var t := Happened(j, s, events); !t.running && t.record && t.room == s.room
    decreases |events|
  {
    if |events| > 0 {
      var e := events[0];
      if e.SweepRecord? {
        DeferredIsUntouched(j, s, e.view, e.stop);
      }
      HappenKeeps(j, s, e);
      assert forall x :: x in events[1..] ==> x in events;
      WaitingStays(j, Happen(j, s, e), events[1..]);
    }
  }

  // A failure before the object was moved takes the quarantine directory and the record away again;
  // after that it leaves both, and the object, for the sweep.
  lemma FailureLeaves(j: Job, s: State)
    requires Safe(j, s) && s.running && s.pc < DONE_STEP
    ensures var t := Happen(j, s, Event.Fail);
      && !t.running && t.here == s.here && t.inodes == s.inodes
      && (if 1 <= s.pc <= 3 then t.room.None? && !t.record else t.room == s.room && t.record == s.record)
  {
  }

  // A sweep that is cut short after any operation and run again ends as if it had not been.
  lemma SweepRestarts(j: Job, s: State, view: P.View, stop: nat)
    requires Safe(j, s) && !s.running && s.record
    ensures Sweep(Sweep(s, view, stop), view, 4) == Sweep(s, view, 4)
  {
    SweepEffect(s, view, stop);
    SweepEffect(s, view, 4);
    SweepEffect(Sweep(s, view, stop), view, 4);
  }

  // ---------------------------------------------------------------- the storage object

  function Proceeds(n: nat): seq<Event> { seq(n, _ => Proceed) }

  lemma {:induction false} Chain(j: Job, s: State, n: nat)
    ensures Happened(j, s, Proceeds(n + 1)) == Delete(j, Happened(j, s, Proceeds(n)))
    decreases n
  {
    assert Proceeds(n + 1)[1..] == Proceeds(n);
    if n > 0 {
      assert Proceeds(n)[1..] == Proceeds(n - 1);
      Chain(j, Delete(j, s), n - 1);
    }
  }

  lemma EightSteps(j: Job, s: State)
    ensures Happened(j, s, Proceeds(DONE_STEP))
      == Delete(j, Delete(j, Delete(j, Delete(j, Delete(j, Delete(j, Delete(j, Delete(j, s))))))))
  {
    assert Happened(j, s, Proceeds(0)) == s;
    Chain(j, s, 0);
    Chain(j, s, 1);
    Chain(j, s, 2);
    Chain(j, s, 3);
    Chain(j, s, 4);
    Chain(j, s, 5);
    Chain(j, s, 6);
    Chain(j, s, 7);
  }

  class QuarantineRoot {
    var here: Option<nat>
    var inodes: map<nat, Inode>
    var room: Option<Room>
    var record: bool

    constructor (here: Option<nat>, inodes: map<nat, Inode>)
      ensures this.here == here && this.inodes == inodes && room.None? && !record
    {
      this.here, this.inodes, this.room, this.record := here, inodes, None, false;
    }

    ghost predicate Shows(s: State)
      reads this
    {
      s.here == here && s.inodes == inodes && s.room == room && s.record == record
    }

    // One uninterrupted delete, under the lock.  It unlinks exactly an object that is still as it
    // was examined; another object found in its place stays in quarantine for the sweep.
    method DeleteIfOwned(j: Job, ghost s: State) returns (deleted: bool)
      requires Shows(s) && s.pc == 0 && s.running && room.None?
      modifies this
      ensures var t := Happened(j, s, Proceeds(DONE_STEP));
        && Shows(t)
        && t.deleted == (if deleted then s.deleted + {j.seen.ino} else s.deleted)
      ensures deleted <==> old(here) == Some(j.seen.ino) && j.seen.ino in inodes && inodes[j.seen.ino] == j.seen.inode
      ensures here.None? && inodes == old(inodes)
      ensures deleted || old(here).None? ==> room.None? && !record
      ensures !deleted && old(here).Some? ==> room == Some(Room(Some(NewMeta(j)), None, old(here))) && record
    {
      EightSteps(j, s);
      record := true;
      room := Some(Room(None, None, None));
      room := Some(Room(Some(NewMeta(j)), None, None));
      if here.None? {
        room := None;
        record := false;
        return false;
      }
      var moved := here.value;
      here, room := None, Some(Room(Some(NewMeta(j)), Some(moved), None));
      room := Some(Room(Some(NewMeta(j)), None, Some(moved)));
      if moved != j.seen.ino || moved !in inodes || inodes[moved] != j.seen.inode {
        return false;
      }
      room := Some(Room(Some(NewMeta(j)), None, None));
      room := None;
      record := false;
      return true;
    }

    // The sweep of this record, whole: isolate, examine, and restore or hold.
    method RecoverQuarantine(view: P.View, ghost s: State) returns (outcome: P.Outcome)
      requires Shows(s)
      modifies this
      ensures Shows(Sweep(s, view, 4)) && outcome == Recover(s, view).outcome
    {
      SweepEffect(s, view, 4);
      if room.None? {
        record := false;
        return P.Done;
      }
      if room.value.meta.None? || room.value.meta.value.conflict {
        return P.Held;
      }
      var meta := room.value.meta.value;
      if meta.created > view.cutoff || Protected(meta, view) {
        return P.Deferred;
      }
      if room.value.candidate.None? {
        if room.value.original.None? {
          room, record := None, false;
          return P.Done;
        }
        room := Some(room.value.(original := None, candidate := room.value.original));
      }
      var candidate := room.value.candidate.value;
      if candidate != meta.seen.ino || candidate !in inodes || inodes[candidate] != meta.seen.inode || here.Some? {
        room := Some(room.value.(meta := Some(meta.(conflict := true))));
        return P.Held;
      }
      here := room.value.candidate;
      room := Some(room.value.(candidate := None));
      room, record := None, false;
      return P.Done;
    }
  }
}
