/**
  Publishing an object through a stage file, and the sweep that finishes an interrupted
  publication from its durable intent.

  A directory maps names to inodes; an inode carries its content, its modification time and the
  marker attribute.  Inode numbers are never reused.
 */
module Publication {
  import opened Options
  import opened Leases

  type Name = string

  datatype Inode = Inode(content: seq<int>, mtime: nat, marker: Option<Id>)

  datatype Dir = Dir(names: map<Name, nat>, inodes: map<nat, Inode>)

  predicate WellFormed(d: Dir) {
    forall n :: n in d.names ==> d.names[n] in d.inodes
  }

  function Remove(d: Dir, name: Name): Dir { d.(names := d.names - {name}) }

  // What the recording step wrote down about the finished stage file.
  datatype Source = Source(ino: nat, size: nat)

  datatype Intent = Intent(
    objectName: Name, stageName: Name, token: Id, owner: Option<Id>,
    artifact: Option<ArtifactKey>, source: Option<Source>)

  // What a sweep knows: its age cutoff and the database as the maintenance snapshot saw it.
  datatype View = View(cutoff: int, referenced: set<ArtifactKey>, executions: set<Id>, builds: set<(nat, Id)>)

  datatype Outcome = Done | Deferred | Held

  predicate KeyProtected(key: ArtifactKey, view: View) {
    key in view.referenced || (key.owner.Some? && (key.task, key.owner.value) in view.builds)
  }

  predicate ActiveOwner(owner: Option<Id>, view: View) {
    owner.Some? && owner.value in view.executions
  }

  // The sweep may unlink an artifact only when this holds.
  predicate MayUnlinkArtifact(key: ArtifactKey, mtime: nat, view: View) {
    !KeyProtected(key, view) && mtime <= view.cutoff
  }

  predicate IsSource(d: Dir, name: Name, source: Source)
    requires WellFormed(d)
  {
    name in d.names && d.names[name] == source.ino && |d.inodes[d.names[name]].content| == source.size
  }

  // ---------------------------------------------------------------- the sweep's decision

  // The names to unlink, in order, and the outcome reported after the last of them.
  datatype Verdict = Verdict(unlink: seq<Name>, outcome: Outcome)

  function RecoverUnrecorded(d: Dir, i: Intent, view: View): Verdict
    requires WellFormed(d)
  {
    if i.objectName in d.names then Verdict([], Held)
    else if i.stageName !in d.names then Verdict([], Done)
    else
      var stage := d.inodes[d.names[i.stageName]];
      if stage.marker != Some(i.token) then Verdict([], Held)
      else if stage.mtime > view.cutoff || ActiveOwner(i.owner, view) then Verdict([], Deferred)
      else Verdict([i.stageName], Done)
  }

  function RecoverRecorded(d: Dir, i: Intent, source: Source, view: View): Verdict
    requires WellFormed(d)
  {
    var staged := i.stageName in d.names;
    var stagedOwned := IsSource(d, i.stageName, source);
    if i.objectName in d.names then
      if !IsSource(d, i.objectName, source) then
        if stagedOwned then Verdict([i.stageName], if i.artifact.None? then Done else Held)
        else Verdict([], if !staged && i.artifact.None? then Done else Held)
      else if staged && !stagedOwned then Verdict([], Held)
      else if i.artifact.None? then Verdict(if staged then [i.stageName] else [], Done)
      else if !MayUnlinkArtifact(i.artifact.value, d.inodes[d.names[i.objectName]].mtime, view) then
        Verdict([], Deferred)
      else Verdict(if staged then [i.objectName, i.stageName] else [i.objectName], Done)
    else if !staged then Verdict([], Done)
    else if !stagedOwned then Verdict([], Held)
    else if d.inodes[d.names[i.stageName]].mtime > view.cutoff || ActiveOwner(i.owner, view) then
      Verdict([], Deferred)
    else Verdict([i.stageName], Done)
  }

  function Recover(d: Dir, i: Intent, view: View): Verdict
    requires WellFormed(d)
  {
    if i.objectName !in d.names && i.stageName !in d.names then Verdict([], Done)
    else
      match i.source
      case None => RecoverUnrecorded(d, i, view)
      case Some(source) => RecoverRecorded(d, i, source, view)
  }

  function RemoveAll(d: Dir, names: seq<Name>): Dir
    decreases |names|
  {
    if |names| == 0 then d else RemoveAll(Remove(d, names[0]), names[1..])
  }

  // What a sweep of one publication record leaves in the directory.
  function Swept(d: Dir, i: Intent, view: View): Dir
    requires WellFormed(d)
  {
    RemoveAll(d, Recover(d, i, view).unlink)
  }

  // ---------------------------------------------------------------- what one sweep may touch

  lemma {:induction false} RemoveAllIs(d: Dir, names: seq<Name>)
    ensures RemoveAll(d, names) == d.(names := d.names - (set n | n in names))
    decreases |names|
  {
    if |names| > 0 {
      RemoveAllIs(Remove(d, names[0]), names[1..]);
      assert (set n | n in names) == {names[0]} + (set n | n in names[1..]);
    } else {
      assert d.names - (set n | n in names) == d.names;
    }
  }

  // Only the two names of the intent can go; a file that is not the recorded one never goes; an
  // artifact goes only unprotected and old; a plain object that was linked never goes; "done"
  // leaves no stage name; and every inode keeps its content.
  lemma SweepIsCautious(d: Dir, i: Intent, view: View)
    requires WellFormed(d) && i.stageName != i.objectName
    ensures var d' := Swept(d, i, view);
      && WellFormed(d') && d'.inodes == d.inodes
      && (forall n :: n in d.names && n !in d'.names ==> n == i.objectName || n == i.stageName)
      && (forall n :: n in d'.names ==> n in d.names && d'.names[n] == d.names[n])
      && (i.objectName in d.names && i.objectName !in d'.names ==>
            && i.source.Some? && IsSource(d, i.objectName, i.source.value)
            && i.artifact.Some?
            && MayUnlinkArtifact(i.artifact.value, d.inodes[d.names[i.objectName]].mtime, view))
      && (i.stageName in d.names && i.stageName !in d'.names ==>
            if i.source.Some? then IsSource(d, i.stageName, i.source.value)
            else d.inodes[d.names[i.stageName]].marker == Some(i.token))
      && (Recover(d, i, view).outcome == Done ==> i.stageName !in d'.names)
  {
    RemoveAllIs(d, Recover(d, i, view).unlink);
  }

  // A sweep cut short after any of its unlinks, and run again, ends where it would have ended and
  // reports the same, unless it was stopped between the two names of an artifact whose stage
  // belongs to a running execution: then the rest waits until that execution is over.
  lemma SweepRestartsIff(d: Dir, i: Intent, view: View, stop: nat)
    requires WellFormed(d) && i.stageName != i.objectName
    requires stop <= |Recover(d, i, view).unlink|
    ensures var v := Recover(d, i, view);
      var partial := RemoveAll(d, v.unlink[..stop]);
      && WellFormed(partial)
      && (Recover(partial, i, view).outcome == v.outcome && Swept(partial, i, view) == Swept(d, i, view)
          <==> !(stop == 1 && |v.unlink| == 2 && ActiveOwner(i.owner, view)))
  {
    var v := Recover(d, i, view);
    RemoveAllIs(d, v.unlink);
    RemoveAllIs(d, v.unlink[..stop]);
    var partial := RemoveAll(d, v.unlink[..stop]);
    if stop == |v.unlink| {
      assert v.unlink[..stop] == v.unlink;
      assert Recover(partial, i, view).unlink == [];
    } else if stop == 0 {
      assert v.unlink[..0] == [];
    } else {
      assert v.unlink == [i.objectName, i.stageName] && v.unlink[..1] == [i.objectName];
      if !ActiveOwner(i.owner, view) {
        assert Recover(partial, i, view) == Verdict([i.stageName], Done);
        RemoveAllIs(partial, [i.stageName]);
        assert Swept(partial, i, view).names == Swept(d, i, view).names;
      }
    }
  }

  // With a snapshot that protects the artifacts of running executions it always does.
  lemma SweepRestarts(d: Dir, i: Intent, view: View, stop: nat)
    requires WellFormed(d) && i.stageName != i.objectName
    requires stop <= |Recover(d, i, view).unlink|
    requires i.artifact.Some? && ActiveOwner(i.owner, view) ==> KeyProtected(i.artifact.value, view)
    ensures var partial := RemoveAll(d, Recover(d, i, view).unlink[..stop]);
      && WellFormed(partial)
      && Recover(partial, i, view).outcome == Recover(d, i, view).outcome
      && Swept(partial, i, view) == Swept(d, i, view)
  {
    SweepRestartsIff(d, i, view, stop);
  }

  // ---------------------------------------------------------------- what a sweep decides, and when

  // Too young to be given up by a sweep, or of an execution that still runs.
  predicate Waits(mtime: nat, owner: Option<Id>, view: View) {
    mtime > view.cutoff || (owner.Some? && owner.value in view.executions)
  }

  // The stage file goes exactly if it is known to be the publication's own, and either a canonical
  // file is there, recorded, and does not keep it, or none is and nothing speaks for waiting.
  lemma StageGoesIff(d: Dir, i: Intent, view: View)
    requires WellFormed(d) && i.stageName != i.objectName && i.stageName in d.names
    ensures var stage := d.inodes[d.names[i.stageName]];
      i.stageName !in Swept(d, i, view).names <==>
        if i.source.None? then
          i.objectName !in d.names && stage.marker == Some(i.token) && !Waits(stage.mtime, i.owner, view)
        else
          && IsSource(d, i.stageName, i.source.value)
          && (if i.objectName !in d.names then !Waits(stage.mtime, i.owner, view)
              else if !IsSource(d, i.objectName, i.source.value) || i.artifact.None? then true
              else
                && !(i.artifact.value in view.referenced)
                && !(i.artifact.value.owner.Some? && (i.artifact.value.task, i.artifact.value.owner.value) in view.builds)
                && d.inodes[d.names[i.objectName]].mtime <= view.cutoff)
  {
    RemoveAllIs(d, Recover(d, i, view).unlink);
  }

  // A file under the canonical name goes exactly if it is the recorded artifact, old, referred to by
  // no row and by no running build, and no other file has the stage name.
  lemma ObjectGoesIff(d: Dir, i: Intent, view: View)
    requires WellFormed(d) && i.stageName != i.objectName && i.objectName in d.names
    ensures i.objectName !in Swept(d, i, view).names <==>
      && i.source.Some? && IsSource(d, i.objectName, i.source.value) && i.artifact.Some?
      && (i.stageName in d.names ==> IsSource(d, i.stageName, i.source.value))
      && !(i.artifact.value in view.referenced)
      && !(i.artifact.value.owner.Some? && (i.artifact.value.task, i.artifact.value.owner.value) in view.builds)
      && d.inodes[d.names[i.objectName]].mtime <= view.cutoff
  {
    RemoveAllIs(d, Recover(d, i, view).unlink);
  }

  // What is one's own and could go later is deferred, and untouched; what cannot be resolved is
  // held; and the rest is done.
  lemma OutcomeIs(d: Dir, i: Intent, view: View)
    requires WellFormed(d) && i.stageName != i.objectName
    ensures var v := Recover(d, i, view);
      var canonical, staged := i.objectName in d.names, i.stageName in d.names;
      var ownObject := i.source.Some? && IsSource(d, i.objectName, i.source.value);
      var ownStage := staged && (if i.source.Some? then IsSource(d, i.stageName, i.source.value)
                                 else d.inodes[d.names[i.stageName]].marker == Some(i.token));
      && (v.outcome == Deferred <==>
            || (!canonical && ownStage && Waits(d.inodes[d.names[i.stageName]].mtime, i.owner, view))
            || (ownObject && i.artifact.Some? && (staged ==> ownStage)
                && (|| i.artifact.value in view.referenced
                    || (i.artifact.value.owner.Some? && (i.artifact.value.task, i.artifact.value.owner.value) in view.builds)
                    || d.inodes[d.names[i.objectName]].mtime > view.cutoff)))
      && (v.outcome == Held <==>
            || (staged && !ownStage)
            || (canonical && !ownObject && (i.source.None? || i.artifact.Some?)))
      && (v.outcome == Deferred ==> Swept(d, i, view) == d)
  {
    RemoveAllIs(d, Recover(d, i, view).unlink);
  }

  // As long as no canonical file is there, or the source is not recorded, a stage file that is
  // young or of a running execution stays.
  lemma YoungOrActiveStageStays(d: Dir, i: Intent, view: View)
    requires WellFormed(d) && i.stageName != i.objectName && i.stageName in d.names
    requires Waits(d.inodes[d.names[i.stageName]].mtime, i.owner, view)
    requires i.source.None? || i.objectName !in d.names
    ensures i.stageName in Swept(d, i, view).names
  {
    StageGoesIff(d, i, view);
  }

  // Not so once the source is recorded and the canonical name taken: the stage file has done its
  // work then, however young it is and whoever runs.
  lemma YoungStageCanGo()
    ensures var d := Dir(map["s" := 7, "o" := 8], map[7 := Inode([], 100, Some(1)), 8 := Inode([], 100, None)]);
      var i := Intent("o", "s", 1, Some(9), None, Some(Source(7, 0)));
      var view := View(50, {}, {9}, {});
      && WellFormed(d) && Waits(100, i.owner, view) && "s" in d.names && "s" !in Swept(d, i, view).names
  {
    var d := Dir(map["s" := 7, "o" := 8], map[7 := Inode([], 100, Some(1)), 8 := Inode([], 100, None)]);
    var i := Intent("o", "s", 1, Some(9), None, Some(Source(7, 0)));
    StageGoesIff(d, i, View(50, {}, {9}, {}));
  }

  // ---------------------------------------------------------------- publishing, step by step

  // One publication: its names, its fresh stage token and inode, and the chunks its writer copies.
  datatype Job = Job(
    objectName: Name, stageName: Name, token: Id, owner: Option<Id>, artifact: Option<ArtifactKey>,
    ino: nat, chunks: seq<seq<int>>)

  function Flatten(chunks: seq<seq<int>>): seq<int> {
    if |chunks| == 0 then [] else Flatten(chunks[..|chunks| - 1]) + chunks[|chunks| - 1]
  }

  function Payload(p: Job): seq<int> { Flatten(p.chunks) }

  // The steps before the writer runs, the writer's, and those after it, by number.
  function BindStep(p: Job): nat { 3 + |p.chunks| }
  function LinkStep(p: Job): nat { 4 + |p.chunks| }
  function UnlinkStep(p: Job): nat { 5 + |p.chunks| }
  function ForgetStep(p: Job): nat { 6 + |p.chunks| }

  // The directory, the durable intent, the publisher's next step, and whether it still runs.
  datatype State = State(dir: Dir, intent: Option<Intent>, pc: nat, running: bool)

  function PlainIntent(p: Job): Intent {
    Intent(p.objectName, p.stageName, p.token, p.owner, p.artifact, None)
  }

  predicate StageInPlace(p: Job, s: State) {
    p.stageName in s.dir.names && s.dir.names[p.stageName] == p.ino && p.ino in s.dir.inodes
  }

  // The exception handler: it withdraws what it can and leaves the rest to the sweep.
  function Abort(p: Job, s: State): State {
    if s.pc <= 1 then s.(intent := None, running := false)
    else if (p.artifact.None? || p.objectName !in s.dir.names) && StageInPlace(p, s) then
      s.(dir := Remove(s.dir, p.stageName), intent := None, running := false)
    else s.(running := false)
  }

  function Step(p: Job, s: State, at: nat): State {
    if !s.running || s.pc > ForgetStep(p) then s
    else if s.pc == 0 then s.(intent := Some(PlainIntent(p)), pc := 1)
    else if s.pc == 1 then
      if p.stageName in s.dir.names then Abort(p, s)
      else s.(dir := Dir(s.dir.names[p.stageName := p.ino], s.dir.inodes[p.ino := Inode([], at, None)]), pc := 2)
    else if p.ino !in s.dir.inodes then Abort(p, s)
    else
      var inode := s.dir.inodes[p.ino];
      if s.pc == 2 then
        s.(dir := s.dir.(inodes := s.dir.inodes[p.ino := inode.(marker := Some(p.token))]), pc := 3)
      else if s.pc < BindStep(p) then
        var written := inode.(content := inode.content + p.chunks[s.pc - 3], mtime := at);
        s.(dir := s.dir.(inodes := s.dir.inodes[p.ino := written]), pc := s.pc + 1)
      else if s.pc == BindStep(p) then
        if !StageInPlace(p, s) || s.intent.None? then Abort(p, s)
        else s.(intent := Some(s.intent.value.(source := Some(Source(p.ino, |inode.content|)))), pc := s.pc + 1)
      else if s.pc == LinkStep(p) then
        if p.objectName in s.dir.names || !StageInPlace(p, s) then Abort(p, s)
        else s.(dir := s.dir.(names := s.dir.names[p.objectName := p.ino]), pc := s.pc + 1)
      else if s.pc == UnlinkStep(p) then
        if p.stageName !in s.dir.names then Abort(p, s)
        else s.(dir := Remove(s.dir, p.stageName), pc := s.pc + 1)
      else
        s.(intent := if p.artifact.None? then None else s.intent, pc := s.pc + 1)
  }

  // The publisher holds the mutation lock except while its writer copies.
  predicate LockFree(p: Job, s: State) {
    !s.running || s.pc == 0 || 3 <= s.pc <= BindStep(p) || s.pc > ForgetStep(p)
  }

  // What may happen around a publication.  Other writers use fresh inodes and never a stage name
  // that is not theirs.
  datatype Event =
    | Proceed(at: nat)
    | Fail
    | Crash
    | Foreign(name: Name, ino: nat, inode: Inode)
    | ForeignRemove(name: Name)
    | Sweep(view: View, stop: nat)

  function Min(a: nat, b: nat): nat { if a < b then a else b }

  function SweepEvent(s: State, view: View, stop: nat): State
    requires WellFormed(s.dir) && s.intent.Some?
  {
    var v := Recover(s.dir, s.intent.value, view);
    var done := RemoveAll(s.dir, v.unlink[..Min(stop, |v.unlink|)]);
    if stop > |v.unlink| && v.outcome == Done then s.(dir := done, intent := None) else s.(dir := done)
  }

  function Happen(p: Job, s: State, e: Event): State {
    match e
    case Proceed(at) => Step(p, s, at)
    case Fail => if s.running && s.pc <= ForgetStep(p) then Abort(p, s) else s
    case Crash => s.(running := false)
    case Foreign(name, ino, inode) =>
      if name == p.stageName || name in s.dir.names || ino in s.dir.inodes || ino == p.ino then s
      else s.(dir := Dir(s.dir.names[name := ino], s.dir.inodes[ino := inode]))
    case ForeignRemove(name) =>
      if name in s.dir.names && s.dir.names[name] != p.ino && name != p.stageName then s.(dir := Remove(s.dir, name)) else s
    case Sweep(view, stop) =>
      if WellFormed(s.dir) && s.intent.Some? && LockFree(p, s) then SweepEvent(s, view, stop) else s
  }

  // ---------------------------------------------------------------- the invariant

  ghost predicate Safe(p: Job, s: State) {
    && p.objectName != p.stageName
    && WellFormed(s.dir)
    && (s.intent.Some? ==> s.intent.value.(source := None) == PlainIntent(p))
    && (p.stageName in s.dir.names ==> s.dir.names[p.stageName] == p.ino)
    && (forall n :: n in s.dir.names && s.dir.names[n] == p.ino ==> n == p.stageName || n == p.objectName)
    && (s.pc <= 1 ==> p.ino !in s.dir.inodes && p.stageName !in s.dir.names)
    && (s.pc > 1 ==> p.ino in s.dir.inodes)
    && (s.pc == 2 ==> s.dir.inodes[p.ino].content == [])
    && (3 <= s.pc <= BindStep(p) ==> s.dir.inodes[p.ino].content == Flatten(p.chunks[..s.pc - 3]))
    && (s.pc > BindStep(p) ==> s.dir.inodes[p.ino].content == Payload(p))
    && (s.intent.Some? && s.intent.value.source.Some? ==>
          s.pc > BindStep(p) && s.intent.value.source.value == Source(p.ino, |Payload(p)|))
    && (p.objectName in s.dir.names && s.dir.names[p.objectName] == p.ino ==> s.pc > LinkStep(p))
  }

  lemma AbortKeeps(p: Job, s: State)
    requires Safe(p, s)
    ensures Safe(p, Abort(p, s))
  {
  }

  lemma FlattenNext(chunks: seq<seq<int>>, k: nat)
    requires k < |chunks|
    ensures Flatten(chunks[..k + 1]) == Flatten(chunks[..k]) + chunks[k]
  {
    assert chunks[..k + 1][..k] == chunks[..k];
  }

  lemma StepKeeps(p: Job, s: State, at: nat)
    requires Safe(p, s)
    ensures Safe(p, Step(p, s, at))
  {
    AbortKeeps(p, s);
    if 3 <= s.pc < BindStep(p) {
      FlattenNext(p.chunks, s.pc - 3);
    }
    assert p.chunks[..|p.chunks|] == p.chunks;
  }

  lemma SweepKeeps(p: Job, s: State, view: View, stop: nat)
    requires Safe(p, s) && s.intent.Some?
    ensures Safe(p, SweepEvent(s, view, stop))
  {
    var v := Recover(s.dir, s.intent.value, view);
    RemoveAllIs(s.dir, v.unlink[..Min(stop, |v.unlink|)]);
  }

  lemma HappenKeeps(p: Job, s: State, e: Event)
    requires Safe(p, s)
    ensures Safe(p, Happen(p, s, e))
  {
    match e
    case Proceed(at) => StepKeeps(p, s, at);
    case Fail => AbortKeeps(p, s);
    case Sweep(view, stop) => if s.intent.Some? && LockFree(p, s) { SweepKeeps(p, s, view, stop); }
    case _ =>
  }

  // ---------------------------------------------------------------- whole runs

  function Happened(p: Job, s: State, events: seq<Event>): State
    decreases |events|
  {
    if |events| == 0 then s else Happened(p, Happen(p, s, events[0]), events[1..])
  }

  lemma {:induction false} RunsAreSafe(p: Job, s: State, events: seq<Event>)
    requires Safe(p, s)
    ensures Safe(p, Happened(p, s, events))
    decreases |events|
  {
    if |events| > 0 {
      HappenKeeps(p, s, events[0]);
      RunsAreSafe(p, Happen(p, s, events[0]), events[1..]);
    }
  }

  ghost predicate Fresh(p: Job, d: Dir) {
    && WellFormed(d) && p.objectName != p.stageName && p.stageName !in d.names && p.ino !in d.inodes
  }

  // However the publication is interrupted and whatever sweeps and other writers do, its
  // canonical name is absent, somebody else's, or holds the whole payload.
  lemma CanonicalIsWhole(p: Job, d: Dir, events: seq<Event>)
    requires Fresh(p, d)
    ensures var s := Happened(p, State(d, None, 0, true), events);
      p.objectName in s.dir.names && s.dir.names[p.objectName] == p.ino ==>
        p.ino in s.dir.inodes && s.dir.inodes[p.ino].content == Payload(p)
  {
    RunsAreSafe(p, State(d, None, 0, true), events);
  }

  lemma ForeignStays(p: Job, s: State, e: Event, name: Name)
    requires Safe(p, s) && !e.ForeignRemove?
    requires name in s.dir.names && s.dir.names[name] != p.ino
    ensures var s' := Happen(p, s, e);
      && name in s'.dir.names && s'.dir.names[name] == s.dir.names[name]
      && s.dir.names[name] in s'.dir.inodes
      && s'.dir.inodes[s.dir.names[name]] == s.dir.inodes[s.dir.names[name]]
  {
    if e.Sweep? && s.intent.Some? && LockFree(p, s) {
      var v := Recover(s.dir, s.intent.value, e.view);
      RemoveAllIs(s.dir, v.unlink[..Min(e.stop, |v.unlink|)]);
    }
  }

  // No step of a publication, no failure handler and no sweep of its intent, finished or cut
  // short, ever touches a file that somebody else put in the directory.
  lemma {:induction false} ForeignNeverTouched(p: Job, s: State, events: seq<Event>, name: Name)
    requires Safe(p, s) && (forall e :: e in events ==> !e.ForeignRemove?)
    requires name in s.dir.names && s.dir.names[name] != p.ino
    ensures var s' := Happened(p, s, events);
      && name in s'.dir.names && s'.dir.names[name] == s.dir.names[name]
      && s.dir.names[name] in s'.dir.inodes
      && s'.dir.inodes[s.dir.names[name]] == s.dir.inodes[s.dir.names[name]]
    decreases |events|
  {
    if |events| > 0 {
      var next := Happen(p, s, events[0]);
      ForeignStays(p, s, events[0], name);
      HappenKeeps(p, s, events[0]);
      ForeignNeverTouched(p, next, events[1..], name);
    }
  }

  predicate Published(p: Job, s: State) {
    p.objectName in s.dir.names && s.dir.names[p.objectName] == p.ino
  }

  // A sweep view under which the artifact of this publication must be kept.
  predicate Keeps(p: Job, e: Event) {
    e.Sweep? ==> p.artifact.None? || KeyProtected(p.artifact.value, e.view)
  }

  lemma PublishedStays(p: Job, s: State, e: Event)
    requires Safe(p, s) && Published(p, s) && Keeps(p, e)
    ensures Published(p, Happen(p, s, e))
  {
    if e.Sweep? && s.intent.Some? && LockFree(p, s) {
      var v := Recover(s.dir, s.intent.value, e.view);
      RemoveAllIs(s.dir, v.unlink[..Min(e.stop, |v.unlink|)]);
    }
  }

  // Once linked, a plain object survives every continuation, and an artifact survives every one
  // whose sweeps find it protected.
  lemma {:induction false} PublishedSurvives(p: Job, s: State, events: seq<Event>)
    requires Safe(p, s) && Published(p, s) && (forall e :: e in events ==> Keeps(p, e))
    ensures Published(p, Happened(p, s, events))
    ensures p.ino in Happened(p, s, events).dir.inodes
      && Happened(p, s, events).dir.inodes[p.ino].content == Payload(p)
    decreases |events|
  {
    if |events| > 0 {
      PublishedStays(p, s, events[0]);
      HappenKeeps(p, s, events[0]);
      PublishedSurvives(p, Happen(p, s, events[0]), events[1..]);
    }
  }

  // ---------------------------------------------------------------- what a sweep makes of each stopping point

  // A stopped publication with no other writer about: the publisher got to step pc and stopped.
  ghost predicate StoppedAt(p: Job, s: State, canonicalForeign: bool) {
    && Safe(p, s) && 1 <= s.pc <= ForgetStep(p) && s.intent.Some?
    && (2 <= s.pc <= UnlinkStep(p) <==> p.stageName in s.dir.names)
    && (s.pc > LinkStep(p) ==> Published(p, s))
    && (s.pc <= LinkStep(p) ==> (canonicalForeign <==> p.objectName in s.dir.names))
    && (s.intent.value.source.Some? <==> s.pc > BindStep(p))
    && (s.pc >= 2 ==> (s.dir.inodes[p.ino].marker == Some(p.token) <==> s.pc >= 3))
  }

  // With nothing protecting it and its age past the cutoff, a stopped publication is finished
  // off by one sweep, except that it is held with its stage file left behind exactly when the
  // stop fell between creating and marking the stage, or before the source was recorded while
  // another file had the canonical name; and held without one when that file was there before
  // the stage was, or beat an artifact at its link.
  lemma SweepOfStopped(p: Job, s: State, view: View, canonicalForeign: bool)
    requires StoppedAt(p, s, canonicalForeign)
    requires !ActiveOwner(p.owner, view) && (p.artifact.Some? ==> !KeyProtected(p.artifact.value, view))
    requires s.pc >= 2 ==> s.dir.inodes[p.ino].mtime <= view.cutoff
    ensures var v := Recover(s.dir, s.intent.value, view);
      var after := Swept(s.dir, s.intent.value, view);
      && (p.stageName in after.names <==> (s.pc == 2 || (3 <= s.pc <= BindStep(p) && canonicalForeign)))
      && (v.outcome == Held <==> (
            || p.stageName in after.names
            || (s.pc == 1 && canonicalForeign)
            || (s.pc == LinkStep(p) && canonicalForeign && p.artifact.Some?)))
      && v.outcome != Deferred
      && ((p.objectName in after.names && after.names[p.objectName] == p.ino) <==>
            (s.pc > LinkStep(p) && p.artifact.None?))
  {
    RemoveAllIs(s.dir, Recover(s.dir, s.intent.value, view).unlink);
  }

  // Nothing runs any more, and the record, without its source, points at a stage file without
  // its marker; or its canonical name is somebody else's.
  ghost predicate Unresolvable(p: Job, s: State) {
    && Safe(p, s) && !s.running && s.intent == Some(PlainIntent(p))
    && (|| p.objectName in s.dir.names
        || (p.stageName in s.dir.names && s.dir.inodes[p.ino].marker != Some(p.token)))
  }

  // In a way that nobody else can resolve.
  ghost predicate ForGood(p: Job, s: State)
    requires Safe(p, s)
  {
    || (p.stageName in s.dir.names && s.dir.inodes[p.ino].marker != Some(p.token))
    || (p.objectName in s.dir.names && s.dir.names[p.objectName] == p.ino)
  }

  lemma HeldOnce(p: Job, s: State, view: View)
    requires Unresolvable(p, s)
    ensures Recover(s.dir, s.intent.value, view) == Verdict([], Held)
  {
  }

  lemma StaysUnresolvable(p: Job, s: State, e: Event)
    requires Unresolvable(p, s)
    requires ForGood(p, s) || e != ForeignRemove(p.objectName)
    ensures Unresolvable(p, Happen(p, s, e)) && (ForGood(p, s) ==> ForGood(p, Happen(p, s, e)))
    ensures p.stageName in s.dir.names ==>
      p.stageName in Happen(p, s, e).dir.names && Happen(p, s, e).dir.inodes[p.ino] == s.dir.inodes[p.ino]
    ensures p.objectName in s.dir.names && s.dir.names[p.objectName] == p.ino ==>
      p.objectName in Happen(p, s, e).dir.names && Happen(p, s, e).dir.names[p.objectName] == p.ino
  {
    HappenKeeps(p, s, e);
    if e.Sweep? {
      HeldOnce(p, s, e.view);
      assert RemoveAll(s.dir, []) == s.dir;
    }
  }

  // A publication stopped between creating its stage file and marking it is held by every sweep
  // of every continuation, and its stage file stays.  So is one stopped before its source was
  // recorded, as long as nobody removes the file that has its canonical name; and so would be a
  // published file whose record has lost its source.
  lemma {:induction false} HeldForEver(p: Job, s: State, events: seq<Event>, view: View)
    requires Unresolvable(p, s)
    requires ForGood(p, s) || ForeignRemove(p.objectName) !in events
    ensures var t := Happened(p, s, events);
      && Unresolvable(p, t) && Recover(t.dir, t.intent.value, view) == Verdict([], Held)
      && (p.stageName in s.dir.names ==> p.stageName in t.dir.names)
      && (p.objectName in s.dir.names && s.dir.names[p.objectName] == p.ino ==>
            p.objectName in t.dir.names && t.dir.names[p.objectName] == p.ino)
    decreases |events|
  {
    if |events| == 0 {
      HeldOnce(p, s, view);
    } else {
      StaysUnresolvable(p, s, events[0]);
      HeldForEver(p, Happen(p, s, events[0]), events[1..], view);
    }
  }

  // The stopping points for which a sweep leaves the stage file behind are of that kind.
  lemma StoppedIsUnresolvable(p: Job, s: State, canonicalForeign: bool)
    requires StoppedAt(p, s, canonicalForeign) && !s.running
    ensures s.pc == 2 ==> Unresolvable(p, s) && ForGood(p, s)
    ensures 1 <= s.pc <= BindStep(p) && canonicalForeign ==> Unresolvable(p, s)
  {
  }

  function Steps(times: seq<nat>): seq<Event> {
    seq(|times|, k requires 0 <= k < |times| => Proceed(times[k]))
  }

  // Those stopping points are the ones an undisturbed publisher passes through.
  lemma {:induction false} StopsAreReached(p: Job, d: Dir, times: seq<nat>)
    requires Fresh(p, d) && 1 <= |times| <= ForgetStep(p)
    requires p.objectName in d.names ==> |times| <= LinkStep(p)
    ensures var s := Happened(p, State(d, None, 0, true), Steps(times) + [Crash]);
      s.pc == |times| && !s.running && StoppedAt(p, s, p.objectName in d.names)
  {
    var start := State(d, None, 0, true);
    UndisturbedSteps(p, d, times);
    AppendedEvent(p, start, Steps(times), Crash);
    RunsAreSafe(p, start, Steps(times) + [Crash]);
  }

  lemma {:induction false} AppendedEvent(p: Job, s: State, events: seq<Event>, e: Event)
    ensures Happened(p, s, events + [e]) == Happen(p, Happened(p, s, events), e)
    decreases |events|
  {
    if |events| == 0 {
      assert [e][1..] == [];
      assert events + [e] == [e];
    } else {
      assert (events + [e])[1..] == events[1..] + [e];
      AppendedEvent(p, Happen(p, s, events[0]), events[1..], e);
    }
  }

  // The shape of the state after an undisturbed publisher's first steps.
  lemma {:induction false} UndisturbedSteps(p: Job, d: Dir, times: seq<nat>)
    requires Fresh(p, d) && |times| <= ForgetStep(p)
    requires p.objectName in d.names ==> |times| <= LinkStep(p)
    ensures var s := Happened(p, State(d, None, 0, true), Steps(times));
      && s.pc == |times| && s.running && Safe(p, s)
      && (s.pc == 0 || StoppedAt(p, s, p.objectName in d.names))
      && (s.pc == 0 ==> s == State(d, None, 0, true))
      && (s.pc == 1 ==> s.dir == d)
  {
    var start := State(d, None, 0, true);
    RunsAreSafe(p, start, Steps(times));
    var n := |times|;
    if n > 0 {
      UndisturbedSteps(p, d, times[..n - 1]);
      assert Steps(times) == Steps(times[..n - 1]) + [Proceed(times[n - 1])];
      AppendedEvent(p, start, Steps(times[..n - 1]), Proceed(times[n - 1]));
      var before := Happened(p, start, Steps(times[..n - 1]));
      NextStop(p, before, times[n - 1], p.objectName in d.names);
    }
  }

  lemma NextStop(p: Job, s: State, at: nat, canonicalForeign: bool)
    requires Safe(p, s) && s.running && s.pc < ForgetStep(p)
    requires if s.pc == 0 then canonicalForeign <==> p.objectName in s.dir.names else StoppedAt(p, s, canonicalForeign)
    requires s.pc == LinkStep(p) ==> !canonicalForeign
    ensures var s' := Step(p, s, at);
      && s'.pc == s.pc + 1 && s'.running && StoppedAt(p, s', canonicalForeign)
      && (s.pc == 0 ==> s'.dir == s.dir)
  {
    StepKeeps(p, s, at);
  }

  // ---------------------------------------------------------------- a running publication is left alone

  // It has all that it needs for its next step.
  ghost predicate OnTrack(p: Job, s: State) {
    && Safe(p, s) && s.running && s.pc <= ForgetStep(p) + 1 && (s.pc == 0 ==> s.intent.None?)
    && (s.pc > UnlinkStep(p) ==> p.stageName !in s.dir.names)
    && (1 <= s.pc <= ForgetStep(p) ==>
          s.intent == Some(PlainIntent(p).(source := if s.pc > BindStep(p) then Some(Source(p.ino, |Payload(p)|)) else None)))
    && (2 <= s.pc <= UnlinkStep(p) ==> StageInPlace(p, s))
    && (UnlinkStep(p) <= s.pc <= ForgetStep(p) ==>
          p.objectName in s.dir.names && s.dir.names[p.objectName] == p.ino)
  }

  // No crash and no failure, and every sweep's snapshot shows its execution as running.
  predicate Undisturbing(p: Job, e: Event) {
    !e.Fail? && !e.Crash? && (e.Sweep? ==> ActiveOwner(p.owner, e.view))
  }

  // It finds its canonical name taken when it comes to link.
  predicate MeetsOther(p: Job, s: State, e: Event) {
    e.Proceed? && s.running && s.pc == LinkStep(p) && p.objectName in s.dir.names
  }

  lemma SweepLeavesRunning(p: Job, s: State, view: View, stop: nat)
    requires OnTrack(p, s) && s.intent.Some? && LockFree(p, s) && ActiveOwner(p.owner, view) && s.pc <= ForgetStep(p)
    ensures SweepEvent(s, view, stop) == s
  {
    var v := Recover(s.dir, s.intent.value, view);
    assert v.unlink == [] && v.outcome != Done;
    assert RemoveAll(s.dir, v.unlink[..Min(stop, 0)]) == s.dir;
  }

  lemma StaysOnTrackIff(p: Job, s: State, e: Event)
    requires OnTrack(p, s) && Undisturbing(p, e)
    ensures OnTrack(p, Happen(p, s, e)) <==> !MeetsOther(p, s, e)
    ensures !MeetsOther(p, s, e) ==>
      Happen(p, s, e).pc == if e.Proceed? && s.pc <= ForgetStep(p) then s.pc + 1 else s.pc
  {
    HappenKeeps(p, s, e);
    if e.Sweep? && s.intent.Some? && LockFree(p, s) {
      if s.pc <= ForgetStep(p) {
        SweepLeavesRunning(p, s, e.view, e.stop);
      } else {
        var v := Recover(s.dir, s.intent.value, e.view);
        RemoveAllIs(s.dir, v.unlink[..Min(e.stop, |v.unlink|)]);
      }
    }
  }

  ghost predicate NeverMeetsOther(p: Job, s: State, events: seq<Event>)
    decreases |events|
  {
    |events| == 0 || (!MeetsOther(p, s, events[0]) && NeverMeetsOther(p, Happen(p, s, events[0]), events[1..]))
  }

  function Proceedings(events: seq<Event>): nat
    decreases |events|
  {
    if |events| == 0 then 0 else (if events[0].Proceed? then 1 else 0) + Proceedings(events[1..])
  }

  lemma OnceOff(p: Job, s: State, e: Event)
    requires !s.running
    ensures !Happen(p, s, e).running
  {
  }

  lemma {:induction false} OffForGood(p: Job, s: State, events: seq<Event>)
    requires !s.running
    ensures !Happened(p, s, events).running
    decreases |events|
  {
    if |events| > 0 {
      OnceOff(p, s, events[0]);
      OffForGood(p, Happen(p, s, events[0]), events[1..]);
    }
  }

  lemma {:induction false} RunsOnTrackIff(p: Job, s: State, events: seq<Event>)
    requires OnTrack(p, s) && forall e :: e in events ==> Undisturbing(p, e)
    ensures var t := Happened(p, s, events);
      && (t.running <==> NeverMeetsOther(p, s, events))
      && (t.running ==> OnTrack(p, t) && t.pc == Min(s.pc + Proceedings(events), ForgetStep(p) + 1))
    decreases |events|
  {
    if |events| > 0 {
      var e, next := events[0], Happen(p, s, events[0]);
      StaysOnTrackIff(p, s, e);
      assert forall x :: x in events[1..] ==> x in events;
      if MeetsOther(p, s, e) {
        OffForGood(p, next, events[1..]);
      } else {
        RunsOnTrackIff(p, next, events[1..]);
      }
    }
  }

  // With no crash and no failure, and every sweep's snapshot showing its execution as running, a
  // publication never loses its stage file or its record to a sweep, and every step takes it on:
  // it goes through exactly if nobody else's file has its name when it comes to link.
  lemma PublishesIff(p: Job, d: Dir, events: seq<Event>)
    requires Fresh(p, d) && forall e :: e in events ==> Undisturbing(p, e)
    ensures var t := Happened(p, State(d, None, 0, true), events);
      && (t.running <==> NeverMeetsOther(p, State(d, None, 0, true), events))
      && (t.running ==>
            && t.pc == Min(Proceedings(events), ForgetStep(p) + 1)
            && (2 <= t.pc <= UnlinkStep(p) ==> StageInPlace(p, t) && t.intent.Some?)
            && (UnlinkStep(p) <= t.pc <= ForgetStep(p) ==>
                  p.objectName in t.dir.names && t.dir.names[p.objectName] == p.ino && p.ino in t.dir.inodes
                  && t.dir.inodes[p.ino].content == Payload(p)))
  {
    RunsOnTrackIff(p, State(d, None, 0, true), events);
  }

  // A finished sweep leaves what its decision says and drops the record exactly if that says done;
  // one that is cut off before keeps the record.
  lemma SweepEventIs(s: State, view: View, stop: nat)
    requires WellFormed(s.dir) && s.intent.Some?
    ensures var t, v := SweepEvent(s, view, stop), Recover(s.dir, s.intent.value, view);
      && t.pc == s.pc && t.running == s.running
      && (if stop > |v.unlink| then
            && t.dir == Swept(s.dir, s.intent.value, view)
            && (t.intent == if v.outcome == Done then None else s.intent)
          else t.intent == s.intent && t.dir == RemoveAll(s.dir, v.unlink[..stop]))
  {
    var v := Recover(s.dir, s.intent.value, view);
    assert v.unlink[..|v.unlink|] == v.unlink;
  }

  // The runs leave others free: to put a new file under any name but the stage's, to take away
  // whatever is not the publication's, and to sweep a record whenever the publisher is gone or
  // copying.
  lemma OthersAreFree(p: Job, s: State, name: Name, ino: nat, inode: Inode, view: View, stop: nat)
    ensures name != p.stageName && name !in s.dir.names && ino !in s.dir.inodes && ino != p.ino ==>
      Happen(p, s, Foreign(name, ino, inode)).dir == Dir(s.dir.names[name := ino], s.dir.inodes[ino := inode])
    ensures name != p.stageName && name in s.dir.names && s.dir.names[name] != p.ino ==>
      Happen(p, s, ForeignRemove(name)).dir.names == s.dir.names - {name}
    ensures WellFormed(s.dir) && s.intent.Some? && (!s.running || 3 <= s.pc <= BindStep(p)) ==>
      Happen(p, s, Sweep(view, stop)) == SweepEvent(s, view, stop)
    ensures s.running && s.pc <= ForgetStep(p) ==> !Happen(p, s, Event.Fail).running && !Happen(p, s, Crash).running
  {
  }

  // A publisher whose stage file is gone, or whose canonical name is taken, stops before it
  // records or links anything.
  lemma LostStageFails(p: Job, s: State, at: nat)
    requires Safe(p, s) && s.running && (s.pc == BindStep(p) || s.pc == LinkStep(p))
    requires !StageInPlace(p, s) || (s.pc == LinkStep(p) && p.objectName in s.dir.names)
    ensures var t := Step(p, s, at);
      && !t.running && t.dir.inodes == s.dir.inodes
      && (forall n :: n in t.dir.names ==> n in s.dir.names && t.dir.names[n] == s.dir.names[n])
      && (t.intent.Some? ==> t.intent == s.intent)
  {
  }

  // While it copies, its stage file is as young as the last chunk.
  lemma CopyingKeepsYoung(p: Job, s: State, at: nat, view: View, stop: nat)
    requires OnTrack(p, s) && (s.pc == 1 || 3 <= s.pc < BindStep(p)) && view.cutoff < at
    requires p.objectName !in s.dir.names
    ensures var t := Step(p, s, at);
      && t.pc == s.pc + 1 && StageInPlace(p, t) && t.dir.inodes[p.ino].mtime == at && t.intent.Some?
      && WellFormed(t.dir) && p.stageName in SweepEvent(t, view, stop).dir.names
  {
    var t := Step(p, s, at);
    StepKeeps(p, s, at);
    YoungOrActiveStageStays(t.dir, t.intent.value, view);
    SweepEventIs(t, view, stop);
  }

  // A failure withdraws the stage file and the record of a plain object, and of an artifact whose
  // canonical name is free; otherwise it leaves both to the sweep.
  lemma FailureWithdraws(p: Job, s: State)
    requires OnTrack(p, s) && s.pc <= ForgetStep(p)
    ensures var t := Happen(p, s, Event.Fail);
      && !t.running
      && (s.pc <= 1 ==> t.intent.None? && t.dir == s.dir)
      && (2 <= s.pc <= UnlinkStep(p) ==>
            if p.artifact.None? || p.objectName !in s.dir.names then
              t.intent.None? && t.dir == Remove(s.dir, p.stageName)
            else t.intent == s.intent && t.dir == s.dir)
      && (s.pc == ForgetStep(p) ==> t.intent == s.intent && t.dir == s.dir)
  {
  }

  // ---------------------------------------------------------------- the storage object

  // Events one at a time, in the order given.
  lemma StepsSoFar(p: Job, s: State, times: seq<nat>, k: nat)
    requires k < |times|
    ensures Happened(p, s, Steps(times[..k + 1])) == Step(p, Happened(p, s, Steps(times[..k])), times[k])
  {
    assert Steps(times[..k + 1]) == Steps(times[..k]) + [Proceed(times[k])];
    AppendedEvent(p, s, Steps(times[..k]), Proceed(times[k]));
  }

  lemma {:induction false} StoppedStays(p: Job, s: State, times: seq<nat>)
    requires !s.running
    ensures Happened(p, s, Steps(times)) == s
    decreases |times|
  {
    if |times| > 0 {
      assert Steps(times)[1..] == Steps(times[1..]);
      StoppedStays(p, s, times[1..]);
    }
  }

  lemma SplitSteps(p: Job, s: State, times: seq<nat>, k: nat)
    requires k <= |times|
    requires !Happened(p, s, Steps(times[..k])).running
    ensures Happened(p, s, Steps(times)) == Happened(p, s, Steps(times[..k]))
    decreases |times| - k
  {
    if k == |times| {
      assert times[..k] == times;
    } else {
      StepsSoFar(p, s, times, k);
      SplitSteps(p, s, times, k + 1);
    }
  }

  // When the stage file was written last: with its last chunk, or as it was made.
  function WrittenAt(p: Job, at: seq<nat>): nat
    requires |at| > BindStep(p)
  {
    at[if |p.chunks| == 0 then 1 else BindStep(p) - 1]
  }

  class DataRoot {
    var names: map<Name, nat>
    var inodes: map<nat, Inode>
    var intent: Option<Intent>

    constructor (dir: Dir)
      ensures names == dir.names && inodes == dir.inodes && intent.None?
    {
      names, inodes, intent := dir.names, dir.inodes, None;
    }

    // Intent, stage file, marker and content: the steps up to the recording of the source.
    method WriteStage(p: Job, at: seq<nat>)
      requires Fresh(p, Dir(names, inodes)) && intent.None? && |at| == ForgetStep(p) + 1
      modifies this
      ensures names == old(names)[p.stageName := p.ino] && p.ino in inodes && intent == Some(PlainIntent(p))
      ensures inodes == old(inodes)[p.ino := Inode(Payload(p), WrittenAt(p, at), Some(p.token))]
      ensures State(Dir(names, inodes), intent, BindStep(p), true)
        == Happened(p, State(Dir(old(names), old(inodes)), None, 0, true), Steps(at[..BindStep(p)]))
    {
      ghost var start := State(Dir(names, inodes), None, 0, true);
      intent := Some(PlainIntent(p));
      StepsSoFar(p, start, at, 0);
      names := names[p.stageName := p.ino];
      inodes := inodes[p.ino := Inode([], at[1], None)];
      StepsSoFar(p, start, at, 1);
      inodes := inodes[p.ino := inodes[p.ino].(marker := Some(p.token))];
      StepsSoFar(p, start, at, 2);
      Copy(p, at, start);
    }

    // The writer, a chunk at a time.
    method Copy(p: Job, at: seq<nat>, ghost start: State)
      requires |at| == ForgetStep(p) + 1
      requires p.ino in inodes && inodes[p.ino] == Inode([], at[1], Some(p.token))
      requires State(Dir(names, inodes), intent, 3, true) == Happened(p, start, Steps(at[..3]))
      modifies `inodes
      ensures inodes == old(inodes)[p.ino := Inode(Payload(p), WrittenAt(p, at), Some(p.token))]
      ensures State(Dir(names, inodes), intent, BindStep(p), true) == Happened(p, start, Steps(at[..BindStep(p)]))
    {
      var i := 0;
      while i < |p.chunks|
        invariant i <= |p.chunks|
        invariant inodes == old(inodes)[p.ino := Inode(Flatten(p.chunks[..i]), at[if i == 0 then 1 else 2 + i], Some(p.token))]
        invariant State(Dir(names, inodes), intent, 3 + i, true) == Happened(p, start, Steps(at[..3 + i]))
      {
        StepsSoFar(p, start, at, 3 + i);
        FlattenNext(p.chunks, i);
        inodes := inodes[p.ino := inodes[p.ino].(content := inodes[p.ino].content + p.chunks[i], mtime := at[3 + i])];
        i := i + 1;
      }
      assert p.chunks[..i] == p.chunks;
    }

    // Recording the source, the link that never replaces, and the end of the stage name.
    method LinkStage(p: Job, at: seq<nat>, ghost start: State) returns (ok: bool)
      requires |at| == ForgetStep(p) + 1 && p.objectName != p.stageName
      requires p.stageName in names && names[p.stageName] == p.ino && p.ino in inodes && intent == Some(PlainIntent(p))
      requires State(Dir(names, inodes), intent, BindStep(p), true) == Happened(p, start, Steps(at[..BindStep(p)]))
      modifies this
      ensures State(Dir(names, inodes), intent, if ok then |at| else LinkStep(p), ok) == Happened(p, start, Steps(at))
      ensures ok <==> p.objectName !in old(names)
      ensures inodes == old(inodes)
      ensures ok ==> names == old(names)[p.objectName := p.ino] - {p.stageName}
      ensures !ok ==> names == if p.artifact.None? then old(names) - {p.stageName} else old(names)
      ensures intent == if p.artifact.None? then None
                        else Some(PlainIntent(p).(source := Some(Source(p.ino, |inodes[p.ino].content|))))
    {
      StepsSoFar(p, start, at, BindStep(p));
      intent := Some(intent.value.(source := Some(Source(p.ino, |inodes[p.ino].content|))));
      assert State(Dir(names, inodes), intent, LinkStep(p), true) == Happened(p, start, Steps(at[..LinkStep(p)]));
      StepsSoFar(p, start, at, LinkStep(p));
      if p.objectName in names {
        if p.artifact.None? {
          names := names - {p.stageName};
          intent := None;
        }
        SplitSteps(p, start, at, LinkStep(p) + 1);
        return false;
      }
      names := names[p.objectName := p.ino];
      StepsSoFar(p, start, at, UnlinkStep(p));
      names := names - {p.stageName};
      StepsSoFar(p, start, at, ForgetStep(p));
      if p.artifact.None? {
        intent := None;
      }
      assert at[..|at|] == at;
      return true;
    }

    // The whole of an uncrashed publication; at[k] is the time of step k.  It fails, leaving the
    // other file alone, exactly when the canonical name is taken.  Of a plain object nothing else is
    // left behind; of an artifact its record, and after a failure its stage file.
    method Publish(p: Job, at: seq<nat>) returns (ok: bool)
      requires Fresh(p, Dir(names, inodes)) && intent.None? && |at| == ForgetStep(p) + 1
      modifies this
      ensures State(Dir(names, inodes), intent, if ok then |at| else LinkStep(p), ok)
        == Happened(p, State(Dir(old(names), old(inodes)), None, 0, true), Steps(at))
      ensures ok <==> p.objectName !in old(names)
      ensures inodes == old(inodes)[p.ino := Inode(Payload(p), WrittenAt(p, at), Some(p.token))]
      ensures names == if ok then old(names)[p.objectName := p.ino]
                       else if p.artifact.None? then old(names) else old(names)[p.stageName := p.ino]
      ensures intent == if p.artifact.None? then None else Some(PlainIntent(p).(source := Some(Source(p.ino, |Payload(p)|))))
    {
      ghost var start := State(Dir(names, inodes), None, 0, true);
      WriteStage(p, at);
      ok := LinkStage(p, at, start);
    }

    method Unlink(name: Name)
      modifies this`names
      ensures names == old(names) - {name}
    {
      names := names - {name};
    }

    method UnlinkArtifact(i: Intent, staged: bool) returns (outcome: Outcome)
      modifies this`names
      ensures names == old(names) - (if staged then {i.objectName, i.stageName} else {i.objectName})
      ensures outcome == Done
    {
      Unlink(i.objectName);
      if staged {
        Unlink(i.stageName);
      }
      return Done;
    }

    // Finishes one publication record and says whether to drop, defer or hold it.
    method RecoverPublication(i: Intent, view: View) returns (outcome: Outcome)
      requires WellFormed(Dir(names, inodes))
      modifies this`names
      ensures Dir(names, inodes) == Swept(Dir(old(names), inodes), i, view)
      ensures outcome == Recover(Dir(old(names), inodes), i, view).outcome
    {
      ghost var v := Recover(Dir(names, inodes), i, view);
      RemoveAllIs(Dir(names, inodes), v.unlink);
      assert names - {} == names;
      var canonical := i.objectName in names;
      var staged := i.stageName in names;
      if !canonical && !staged {
        return Done;
      }
      if i.source.None? {
        if canonical {
          return Held;
        }
        var stage := inodes[names[i.stageName]];
        if stage.marker != Some(i.token) {
          return Held;
        }
        if stage.mtime > view.cutoff || ActiveOwner(i.owner, view) {
          return Deferred;
        }
        Unlink(i.stageName);
        return Done;
      }
      var source := i.source.value;
      var stagedOwned := IsSource(Dir(names, inodes), i.stageName, source);
      if canonical {
        if !IsSource(Dir(names, inodes), i.objectName, source) {
          if stagedOwned {
            Unlink(i.stageName);
            return if i.artifact.None? then Done else Held;
          }
          return if !staged && i.artifact.None? then Done else Held;
        }
        if staged && !stagedOwned {
          return Held;
        }
        if i.artifact.None? {
          if staged {
            Unlink(i.stageName);
          }
          return Done;
        }
        if !MayUnlinkArtifact(i.artifact.value, inodes[names[i.objectName]].mtime, view) {
          return Deferred;
        }
        outcome := UnlinkArtifact(i, staged);
        return;
      }
      if !stagedOwned {
        return Held;
      }
      if inodes[names[i.stageName]].mtime > view.cutoff || ActiveOwner(i.owner, view) {
        return Deferred;
      }
      Unlink(i.stageName);
      return Done;
    }
  }
}
