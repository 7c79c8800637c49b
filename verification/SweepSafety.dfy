/**
  Leases and the storage sweep together: the maintenance run reads its clock, then the active
  leases, then the referenced artifact keys, and sweeps on that knowledge while workers go on
  claiming, publishing, failing and crashing.
 */
module SweepSafety {
  import opened Options
  import L = Leases
  import LI = LeaseInvariants
  import LR = LeaseRuns
  import LT = LeaseTheorems
  import P = Publication

  type Key = L.ArtifactKey

  datatype Phase =
    | Idle
    | ClockRead(started: nat)
    | ActiveRead(started: nat, executions: set<L.Id>, builds: set<(nat, L.Id)>)
    | Sweeping(started: nat, view: P.View)

  // The database and its leases, when each lease was issued, the artifact files with their
  // modification times, the keys a worker has published but not yet recorded, the keys ever
  // used, the keys the retention job is deleting, and how far the maintenance run got.
  datatype Site = Site(
    w: L.World, issuedAt: seq<nat>, files: map<Key, nat>, inHand: set<Key>, used: set<Key>,
    retiring: set<Key>, phase: Phase, minimumAge: nat)

  datatype Move =
    | Database(a: L.Action)
    | WriteFile(k: nat, id: L.Id, mtime: nat)
    | DropFile(key: Key)
    | Record(k: nat, id: L.Id, status: L.TaskStatus)
    | Retire(i: nat)
    | FinishRetire(i: nat)
    | ReadClock
    | ReadActive
    | ReadReferenced
    | Unlink(key: Key)
    | EndSweep

  // The rows of the active-lease query, as executions and as (task, execution) pairs.
  function ActiveExecutions(jobs: seq<L.Job>, now: nat): set<L.Id> {
    set j | 0 <= j < |jobs| && Live(jobs[j], now) :: jobs[j].execution.value
  }

  function ActiveBuilds(jobs: seq<L.Job>, now: nat): set<(nat, L.Id)> {
    set j | 0 <= j < |jobs| && Live(jobs[j], now) && jobs[j].jobType.Build? :: (jobs[j].subject, jobs[j].execution.value)
  }

  predicate Live(job: L.Job, now: nat) {
    job.status == L.Running && job.execution.Some? && job.expires.Some? && job.expires.value > now
  }

  function ReferencedKeys(artifacts: seq<L.Artifact>): set<Key> {
    set i | 0 <= i < |artifacts| && !artifacts[i].cleaned :: artifacts[i].key
  }

  function DatabaseMove(s: Site, a: L.Action): Site {
    var w := L.Apply(s.w, a);
    s.(w := w, issuedAt := if |w.issued| > |s.w.issued| then s.issuedAt + [s.w.now] else s.issuedAt)
  }

  function RecordMove(s: Site, k: nat, id: L.Id, status: L.TaskStatus): Site {
    if k < |s.w.issued| && L.KeyOf(s.w.issued[k], id) in s.inHand then
      var next := DatabaseMove(s, L.Publish(k, id, status));
      if |next.w.db.artifacts| > |s.w.db.artifacts| then
        next.(inHand := s.inHand - {L.KeyOf(s.w.issued[k], id)})
      else next
    else s
  }

  function Apply(s: Site, m: Move): Site {
    match m
    case Database(a) => if a.Publish? || a.MarkCleaned? then s else DatabaseMove(s, a)
    case WriteFile(k, id, mtime) =>
      if k < |s.w.issued| && k < |s.issuedAt| && s.w.issued[k].jobType.Build? && s.issuedAt[k] <= mtime <= s.w.now
         && L.KeyOf(s.w.issued[k], id) !in s.used then
        var key := L.KeyOf(s.w.issued[k], id);
        s.(files := s.files[key := mtime], inHand := s.inHand + {key}, used := s.used + {key})
      else s
    case DropFile(key) =>
      if key in s.inHand then s.(files := s.files - {key}, inHand := s.inHand - {key}) else s
    case Record(k, id, status) => RecordMove(s, k, id, status)
    case Retire(i) =>
      if i < |s.w.db.artifacts| then
        var key := s.w.db.artifacts[i].key;
        s.(files := s.files - {key}, retiring := s.retiring + {key})
      else s
    case FinishRetire(i) =>
      if i < |s.w.db.artifacts| && s.w.db.artifacts[i].key in s.retiring then DatabaseMove(s, L.MarkCleaned(i)) else s
    case ReadClock => s.(phase := ClockRead(s.w.now))
    case ReadActive =>
      if s.phase.ClockRead? then
        s.(phase := ActiveRead(s.phase.started, ActiveExecutions(s.w.db.jobs, s.w.now), ActiveBuilds(s.w.db.jobs, s.w.now)))
      else s
    case ReadReferenced =>
      if s.phase.ActiveRead? then
        s.(phase := Sweeping(s.phase.started,
                             P.View(s.phase.started - s.minimumAge, ReferencedKeys(s.w.db.artifacts),
                                    s.phase.executions, s.phase.builds)))
      else s
    case Unlink(key) => if Unlinkable(s, key) then s.(files := s.files - {key}) else s
    case EndSweep => s.(phase := Idle)
  }

  // The sweep's own test, made on what it read and on the file it sees.
  predicate Unlinkable(s: Site, key: Key) {
    s.phase.Sweeping? && key in s.files && P.MayUnlinkArtifact(key, s.files[key], s.phase.view)
  }

  function Run(s: Site, moves: seq<Move>): Site
    decreases |moves|
  {
    if |moves| == 0 then s else Run(Apply(s, moves[0]), moves[1..])
  }

  function Init(now: nat, leaseSeconds: nat, minimumAge: nat): Site {
    Site(L.Init(now, leaseSeconds), [], map[], {}, {}, {}, Idle, minimumAge)
  }

  // ---------------------------------------------------------------- the invariant

  // Lease k wrote this key, no later than the file's time of modification.
  ghost predicate WrittenBy(s: Site, key: Key, k: nat) {
    && k < |s.w.issued| && |s.issuedAt| == |s.w.issued| && s.w.issued[k].jobType.Build?
    && key == L.KeyOf(s.w.issued[k], key.id)
    && (key in s.files ==> s.issuedAt[k] <= s.files[key])
  }

  ghost predicate KeysWritten(s: Site) {
    && (forall key :: key in s.files ==> key in s.used)
    && (forall key :: key in s.inHand ==> key in s.used)
    && (forall a :: a in s.w.db.artifacts ==> a.key in s.used && a.key !in s.inHand)
    && (forall key :: key in s.used ==> exists k: nat :: WrittenBy(s, key, k))
  }

  predicate Committed(s: Site, key: Key) {
    key !in s.retiring && exists i :: 0 <= i < |s.w.db.artifacts| && s.w.db.artifacts[i].key == key && !s.w.db.artifacts[i].cleaned
  }

  // A live lease has this key in hand and may record it.
  ghost predicate Committable(s: Site, key: Key) {
    key in s.inHand && exists k: nat :: WrittenBy(s, key, k) && L.Owns(s.w.db, s.w.issued[k], s.w.now)
  }

  ghost predicate FilesPresent(s: Site) {
    forall key :: Committed(s, key) || Committable(s, key) ==> key in s.files
  }

  // The lease is dead, was seen alive, or was issued after the run read its clock.
  ghost predicate LeaseCovered(s: Site, started: nat, builds: set<(nat, L.Id)>, k: nat)
    requires k < |s.w.issued| == |s.issuedAt|
  {
    var lease := s.w.issued[k];
    || !L.Owns(s.w.db, lease, s.w.now)
    || (lease.subject, lease.execution) in builds
    || s.issuedAt[k] >= started
  }

  ghost predicate LeasesCovered(s: Site) {
    && |s.issuedAt| == |s.w.issued|
    && match s.phase
       case Idle => true
       case ClockRead(started) => started <= s.w.now
       case ActiveRead(started, _, builds) =>
         started <= s.w.now
         && forall k :: 0 <= k < |s.w.issued| && s.w.issued[k].jobType.Build? ==> LeaseCovered(s, started, builds, k)
       case Sweeping(started, view) =>
         started <= s.w.now && view.cutoff == started - s.minimumAge
         && forall k :: 0 <= k < |s.w.issued| && s.w.issued[k].jobType.Build? ==> LeaseCovered(s, started, view.builds, k)
  }

  // While sweeping, a committed key is referenced, or its build was seen active, or it is new.
  ghost predicate KeyCovered(s: Site, key: Key)
    requires s.phase.Sweeping?
  {
    || P.KeyProtected(key, s.phase.view)
    || exists k: nat :: WrittenBy(s, key, k) && s.issuedAt[k] >= s.phase.started
  }

  ghost predicate RowsCovered(s: Site) {
    s.phase.Sweeping? ==> forall key :: Committed(s, key) ==> KeyCovered(s, key)
  }

  ghost predicate Safe(s: Site) {
    && LI.Inv(s.w) && s.minimumAge > 0
    && |s.issuedAt| == |s.w.issued|
    && KeysWritten(s) && FilesPresent(s) && LeasesCovered(s) && RowsCovered(s)
  }

  // ---------------------------------------------------------------- the point of it all

  // One writer per key, since executions are unique.
  lemma SameWriter(s: Site, key: Key, k: nat, l: nat)
    requires LI.LeasesLinked(s.w) && WrittenBy(s, key, k) && WrittenBy(s, key, l)
    ensures k == l
  {
    assert s.w.issued[k].execution == s.w.issued[l].execution;
    if k < l {
    } else if l < k {
    }
  }

  // What the sweep is about to unlink is neither committed nor still committable.
  lemma UnlinkableIsGarbage(s: Site, key: Key)
    requires Safe(s) && Unlinkable(s, key)
    ensures !Committed(s, key) && !Committable(s, key)
  {
    var started := s.phase.started;
    assert s.files[key] < started;
    forall k: nat | WrittenBy(s, key, k)
      ensures s.issuedAt[k] < started
      ensures !L.Owns(s.w.db, s.w.issued[k], s.w.now)
    {
      assert LeaseCovered(s, started, s.phase.view.builds, k);
    }
  }

  // ---------------------------------------------------------------- what a database action leaves alone

  lemma ArtifactsAfter(w: L.World, a: L.Action)
    ensures !a.Publish? && !a.MarkCleaned? ==> L.Apply(w, a).db.artifacts == w.db.artifacts
    ensures |w.issued| <= |L.Apply(w, a).issued| <= |w.issued| + 1
    ensures L.Apply(w, a).issued[..|w.issued|] == w.issued
    ensures w.now <= L.Apply(w, a).now
  {
  }

  lemma ArtifactsAfterPublish(w: L.World, k: nat, id: L.Id, status: L.TaskStatus)
    requires k < |w.issued|
    ensures var w' := L.Apply(w, L.Publish(k, id, status));
      || w'.db.artifacts == w.db.artifacts
      || (&& L.Owns(w.db, w.issued[k], w.now) && w.issued[k].jobType.Build?
          && w'.db.artifacts == w.db.artifacts + [L.Artifact(id, w.issued[k].subject, L.KeyOf(w.issued[k], id), false)])
    ensures L.Apply(w, L.Publish(k, id, status)).issued == w.issued
    ensures L.Apply(w, L.Publish(k, id, status)).now == w.now
  {
  }

  // Time passed and leases were issued or lost, but files, rows and hands stayed as they were.
  ghost predicate Later(s: Site, s': Site) {
    && |s.issuedAt| == |s.w.issued| && |s'.issuedAt| == |s'.w.issued|
    && s.w.issued <= s'.w.issued && s.issuedAt <= s'.issuedAt && s.w.now <= s'.w.now
    && (forall k :: |s.issuedAt| <= k < |s'.issuedAt| ==> s'.issuedAt[k] >= s.w.now)
    && (forall k :: 0 <= k < |s.w.issued| && !L.Owns(s.w.db, s.w.issued[k], s.w.now)
          ==> !L.Owns(s'.w.db, s.w.issued[k], s'.w.now))
    && s'.files == s.files && s'.used == s.used && s'.retiring == s.retiring
    && s'.phase == s.phase && s'.minimumAge == s.minimumAge
  }

  lemma DatabaseIsLater(s: Site, a: L.Action)
    requires Safe(s)
    ensures LI.Inv(DatabaseMove(s, a).w) && Later(s, DatabaseMove(s, a))
  {
    LR.ApplyKeeps(s.w, a);
    ArtifactsAfter(s.w, a);
    var s' := DatabaseMove(s, a);
    assert s.w.issued <= s'.w.issued;
    forall k | 0 <= k < |s.w.issued| && !L.Owns(s.w.db, s.w.issued[k], s.w.now)
      ensures !L.Owns(s'.w.db, s.w.issued[k], s'.w.now)
    {
      LT.StepKeepsLost(s.w, a, k);
    }
  }

  lemma WritersStay(s: Site, s': Site, key: Key, k: nat)
    requires Later(s, s') && WrittenBy(s, key, k)
    ensures WrittenBy(s', key, k)
  {
  }

  lemma LeasesStayCovered(s: Site, s': Site)
    requires Safe(s) && Later(s, s')
    ensures LeasesCovered(s')
  {
    if s.phase.ActiveRead? || s.phase.Sweeping? {
      var builds := if s.phase.ActiveRead? then s.phase.builds else s.phase.view.builds;
      forall k | 0 <= k < |s'.w.issued| && s'.w.issued[k].jobType.Build?
        ensures LeaseCovered(s', s.phase.started, builds, k)
      {
        if k < |s.w.issued| {
          assert LeaseCovered(s, s.phase.started, builds, k);
        }
      }
    }
  }

  // When no key is committed anew, only time has passed for the files.
  lemma LaterKeeps(s: Site, s': Site)
    requires Safe(s) && Later(s, s') && LI.Inv(s'.w) && s'.inHand == s.inHand
    requires forall a :: a in s'.w.db.artifacts ==> a.key in s.used && a.key !in s.inHand
    requires forall key :: Committed(s', key) ==> Committed(s, key)
    ensures Safe(s')
  {
    LeasesStayCovered(s, s');
    forall key | key in s'.used
      ensures exists k: nat :: WrittenBy(s', key, k)
    {
      var k: nat :| WrittenBy(s, key, k);
      WritersStay(s, s', key, k);
    }
    forall key | Committable(s', key)
      ensures Committable(s, key)
    {
      StillCommittable(s, s', key);
    }
    forall key | s'.phase.Sweeping? && Committed(s', key)
      ensures KeyCovered(s', key)
    {
      assert Committed(s, key);
      CoverStays(s, s', key);
    }
  }

  lemma DatabaseKeeps(s: Site, a: L.Action)
    requires Safe(s) && !a.Publish? && !a.MarkCleaned?
    ensures Safe(DatabaseMove(s, a))
  {
    DatabaseIsLater(s, a);
    ArtifactsAfter(s.w, a);
    LaterKeeps(s, DatabaseMove(s, a));
  }

  // A lease that owns its job later owned it before: ownership is never regained.
  lemma StillCommittable(s: Site, s': Site, key: Key)
    requires Safe(s) && Later(s, s') && LI.LeasesLinked(s'.w) && s'.inHand <= s.inHand && Committable(s', key)
    ensures Committable(s, key)
  {
    var k: nat :| WrittenBy(s', key, k) && L.Owns(s'.w.db, s'.w.issued[k], s'.w.now);
    var l: nat :| WrittenBy(s, key, l);
    WritersStay(s, s', key, l);
    SameWriter(s', key, k, l);
  }

  lemma CoverStays(s: Site, s': Site, key: Key)
    requires Later(s, s') && s.phase.Sweeping? && KeyCovered(s, key)
    ensures KeyCovered(s', key)
  {
    if !P.KeyProtected(key, s.phase.view) {
      var k: nat :| WrittenBy(s, key, k) && s.issuedAt[k] >= s.phase.started;
      WritersStay(s, s', key, k);
    }
  }

  // ---------------------------------------------------------------- recording an artifact

  lemma RecordKeeps(s: Site, k: nat, id: L.Id, status: L.TaskStatus)
    requires Safe(s)
    ensures Safe(RecordMove(s, k, id, status))
  {
    if k < |s.w.issued| && L.KeyOf(s.w.issued[k], id) in s.inHand {
      ArtifactsAfterPublish(s.w, k, id, status);
      if |DatabaseMove(s, L.Publish(k, id, status)).w.db.artifacts| > |s.w.db.artifacts| {
        CommitKeeps(s, k, id, status);
      } else {
        RefusedKeeps(s, k, id, status);
      }
    }
  }

  lemma RefusedKeeps(s: Site, k: nat, id: L.Id, status: L.TaskStatus)
    requires Safe(s) && k < |s.w.issued|
    requires L.Apply(s.w, L.Publish(k, id, status)).db.artifacts == s.w.db.artifacts
    ensures Safe(DatabaseMove(s, L.Publish(k, id, status)))
  {
    DatabaseIsLater(s, L.Publish(k, id, status));
    LaterKeeps(s, DatabaseMove(s, L.Publish(k, id, status)));
  }

  // The row is recorded and its key no longer in hand.
  lemma CommitIsLater(s: Site, k: nat, id: L.Id, status: L.TaskStatus)
    requires Safe(s) && Commits(s, k, id, status)
    ensures var s' := RecordMove(s, k, id, status);
      Later(s, s') && LI.Inv(s'.w) && s'.inHand == s.inHand - {L.KeyOf(s.w.issued[k], id)}
  {
    DatabaseIsLater(s, L.Publish(k, id, status));
  }

  ghost predicate Commits(s: Site, k: nat, id: L.Id, status: L.TaskStatus) {
    && k < |s.w.issued| && L.KeyOf(s.w.issued[k], id) in s.inHand
    && L.Owns(s.w.db, s.w.issued[k], s.w.now) && s.w.issued[k].jobType.Build?
    && L.Apply(s.w, L.Publish(k, id, status)).db.artifacts
       == s.w.db.artifacts + [L.Artifact(id, s.w.issued[k].subject, L.KeyOf(s.w.issued[k], id), false)]
  }

  // Whatever it commits was its own, with a live lease, or was committed before.
  lemma CommitKeepsFiles(s: Site, k: nat, id: L.Id, status: L.TaskStatus)
    requires Safe(s) && Commits(s, k, id, status)
    ensures FilesPresent(RecordMove(s, k, id, status)) && RowsCovered(RecordMove(s, k, id, status))
  {
    var s' := RecordMove(s, k, id, status);
    var mine := L.KeyOf(s.w.issued[k], id);
    CommitIsLater(s, k, id, status);
    var l: nat :| WrittenBy(s, mine, l);
    OwnKey(s, mine, l, k, id);
    assert Committable(s, mine);
    forall key | Committed(s', key) || Committable(s', key)
      ensures key in s'.files
    {
      if Committable(s', key) {
        StillCommittable(s, s', key);
      } else if key != mine {
        CommittedBefore(s, s', mine, key);
      }
    }
    forall key | s'.phase.Sweeping? && Committed(s', key)
      ensures KeyCovered(s', key)
    {
      if key == mine {
        assert LeaseCovered(s, s.phase.started, s.phase.view.builds, k);
        WritersStay(s, s', mine, k);
      } else {
        CommittedBefore(s, s', mine, key);
        CoverStays(s, s', key);
      }
    }
  }

  lemma CommitKeeps(s: Site, k: nat, id: L.Id, status: L.TaskStatus)
    requires Safe(s) && Commits(s, k, id, status)
    ensures Safe(RecordMove(s, k, id, status))
  {
    var s' := RecordMove(s, k, id, status);
    CommitIsLater(s, k, id, status);
    CommitKeepsFiles(s, k, id, status);
    LeasesStayCovered(s, s');
    forall key | key in s'.used
      ensures exists k: nat :: WrittenBy(s', key, k)
    {
      var k: nat :| WrittenBy(s, key, k);
      WritersStay(s, s', key, k);
    }
  }

  lemma OwnKey(s: Site, key: Key, l: nat, k: nat, id: L.Id)
    requires LI.LeasesLinked(s.w) && WrittenBy(s, key, l) && k < |s.w.issued| && key == L.KeyOf(s.w.issued[k], id)
    ensures k == l && WrittenBy(s, key, k)
  {
    assert s.w.issued[k].execution == s.w.issued[l].execution;
    if k < l {
    } else if l < k {
    }
  }

  lemma CommittedBefore(s: Site, s': Site, mine: Key, key: Key)
    requires |s'.w.db.artifacts| == |s.w.db.artifacts| + 1 && s'.w.db.artifacts[..|s.w.db.artifacts|] == s.w.db.artifacts
    requires s'.w.db.artifacts[|s.w.db.artifacts|].key == mine && key != mine && s'.retiring == s.retiring
    requires Committed(s', key)
    ensures Committed(s, key)
  {
    var i :| 0 <= i < |s'.w.db.artifacts| && s'.w.db.artifacts[i].key == key && !s'.w.db.artifacts[i].cleaned;
    assert s.w.db.artifacts[i] == s'.w.db.artifacts[i];
  }

  // ---------------------------------------------------------------- files, retention and the maintenance run

  lemma FinishRetireKeeps(s: Site, i: nat)
    requires Safe(s) && i < |s.w.db.artifacts|
    ensures Safe(DatabaseMove(s, L.MarkCleaned(i)))
  {
    var s' := DatabaseMove(s, L.MarkCleaned(i));
    DatabaseIsLater(s, L.MarkCleaned(i));
    forall a | a in s'.w.db.artifacts
      ensures a.key in s.used && a.key !in s.inHand
    {
      var n :| 0 <= n < |s'.w.db.artifacts| && s'.w.db.artifacts[n] == a;
      assert s.w.db.artifacts[n] in s.w.db.artifacts;
    }
    forall key | Committed(s', key)
      ensures Committed(s, key)
    {
      var n :| 0 <= n < |s'.w.db.artifacts| && s'.w.db.artifacts[n].key == key && !s'.w.db.artifacts[n].cleaned;
      assert s.w.db.artifacts[n].key == key && !s.w.db.artifacts[n].cleaned;
    }
    LaterKeeps(s, s');
  }

  // Files, hands and retirement change; the database and the maintenance run do not.
  lemma FilesChange(s: Site, s': Site)
    requires Safe(s)
    requires s'.w == s.w && s'.issuedAt == s.issuedAt && s'.phase == s.phase && s'.minimumAge == s.minimumAge
    requires s.used <= s'.used && s.retiring <= s'.retiring
    requires forall key :: key in s'.files ==> key in s'.used
    requires forall key :: key in s'.inHand ==> key in s'.used && (key in s.inHand || key !in s.used)
    requires forall key :: key in s'.files && key in s.used ==> key in s.files && s'.files[key] == s.files[key]
    requires forall key :: key in s'.used && key !in s.used ==> exists k: nat :: WrittenBy(s', key, k)
    requires FilesPresent(s')
    ensures Safe(s')
  {
    forall key | key in s'.used
      ensures exists k: nat :: WrittenBy(s', key, k)
    {
      if key in s.used {
        var k: nat :| WrittenBy(s, key, k);
        assert WrittenBy(s', key, k);
      }
    }
    forall key | s'.phase.Sweeping? && Committed(s', key)
      ensures KeyCovered(s', key)
    {
      assert Committed(s, key);
      assert KeyCovered(s, key);
      if !P.KeyProtected(key, s.phase.view) {
        var k: nat :| WrittenBy(s, key, k) && s.issuedAt[k] >= s.phase.started;
        assert WrittenBy(s', key, k);
      }
    }
  }

  lemma WriteFileKeeps(s: Site, k: nat, id: L.Id, mtime: nat)
    requires Safe(s)
    ensures Safe(Apply(s, WriteFile(k, id, mtime)))
  {
    var s' := Apply(s, WriteFile(k, id, mtime));
    if s' != s {
      var mine := L.KeyOf(s.w.issued[k], id);
      assert WrittenBy(s', mine, k);
      forall key | Committed(s', key) || Committable(s', key)
        ensures key in s'.files
      {
        if key != mine && Committable(s', key) {
          var l: nat :| WrittenBy(s', key, l) && L.Owns(s.w.db, s.w.issued[l], s.w.now);
          assert WrittenBy(s, key, l);
          assert Committable(s, key);
        } else if key != mine {
          assert Committed(s, key);
        }
      }
      FilesChange(s, s');
    }
  }

  // Giving up or retiring one key leaves every other key as it was.
  lemma OneKeyLess(s: Site, s': Site, gone: Key)
    requires Safe(s)
    requires s'.w == s.w && s'.issuedAt == s.issuedAt && s'.phase == s.phase && s'.minimumAge == s.minimumAge
    requires s'.used == s.used && s'.files == s.files - {gone}
    requires s.retiring <= s'.retiring && s'.inHand <= s.inHand
    requires !Committed(s', gone) && !Committable(s', gone)
    ensures Safe(s')
  {
    forall key | Committed(s', key) || Committable(s', key)
      ensures key in s'.files
    {
      assert key != gone;
      if Committable(s', key) {
        var l: nat :| WrittenBy(s', key, l) && L.Owns(s.w.db, s.w.issued[l], s.w.now);
        assert WrittenBy(s, key, l);
        assert Committable(s, key);
      } else {
        assert Committed(s, key);
      }
    }
    FilesChange(s, s');
  }

  lemma DropFileKeeps(s: Site, key: Key)
    requires Safe(s)
    ensures Safe(Apply(s, DropFile(key)))
  {
    if key in s.inHand {
      var s' := Apply(s, DropFile(key));
      forall i | 0 <= i < |s.w.db.artifacts|
        ensures s.w.db.artifacts[i].key != key
      {
        assert s.w.db.artifacts[i] in s.w.db.artifacts;
      }
      OneKeyLess(s, s', key);
    }
  }

  lemma RetireKeeps(s: Site, i: nat)
    requires Safe(s)
    ensures Safe(Apply(s, Retire(i)))
  {
    if i < |s.w.db.artifacts| {
      assert s.w.db.artifacts[i] in s.w.db.artifacts;
      OneKeyLess(s, Apply(s, Retire(i)), s.w.db.artifacts[i].key);
    }
  }

  lemma UnlinkKeeps(s: Site, key: Key)
    requires Safe(s)
    ensures Safe(Apply(s, Unlink(key)))
  {
    if Unlinkable(s, key) {
      var s' := Apply(s, Unlink(key));
      UnlinkableIsGarbage(s, key);
      var k: nat :| WrittenBy(s, key, k);
      forall l: nat | WrittenBy(s', key, l)
        ensures WrittenBy(s, key, l)
      {
        OwnKey(s, key, k, l, key.id);
      }
      OneKeyLess(s, s', key);
    }
  }

  // A live lease's build is among the pairs the active-lease query returns.
  lemma LiveLeasesAreSeen(s: Site, k: nat)
    requires Safe(s) && k < |s.w.issued| && s.w.issued[k].jobType.Build? && L.Owns(s.w.db, s.w.issued[k], s.w.now)
    ensures (s.w.issued[k].subject, s.w.issued[k].execution) in ActiveBuilds(s.w.db.jobs, s.w.now)
  {
    LR.OwnedJob(s.w, k);
    var j := s.w.issued[k].job;
    assert Live(s.w.db.jobs[j], s.w.now);
  }

  // ... and nothing else is: the query returns exactly the builds of the leases that own their jobs.
  lemma OnlyLiveLeasesAreSeen(s: Site, t: nat, execution: L.Id)
    requires Safe(s)
    ensures (t, execution) in ActiveBuilds(s.w.db.jobs, s.w.now)
      <==> exists k :: 0 <= k < |s.w.issued| && HoldsBuild(s, k, t, execution)
  {
    if (t, execution) in ActiveBuilds(s.w.db.jobs, s.w.now) {
      var j: nat :| j < |s.w.db.jobs| && Live(s.w.db.jobs[j], s.w.now) && s.w.db.jobs[j].jobType.Build?
        && (t, execution) == (s.w.db.jobs[j].subject, s.w.db.jobs[j].execution.value);
      assert LI.RowOk(s.w, j);
      assert HoldsBuild(s, LI.Latest(s.w.issued, j).value, t, execution);
    }
    if k :| 0 <= k < |s.w.issued| && HoldsBuild(s, k, t, execution) {
      LiveLeasesAreSeen(s, k);
    }
  }

  predicate HoldsBuild(s: Site, k: nat, t: nat, execution: L.Id)
    requires k < |s.w.issued|
  {
    var lease := s.w.issued[k];
    lease.jobType.Build? && lease.subject == t && lease.execution == execution && L.Owns(s.w.db, lease, s.w.now)
  }

  lemma ReferencedIff(artifacts: seq<L.Artifact>, key: Key)
    ensures key in ReferencedKeys(artifacts) <==> exists a :: a in artifacts && !a.cleaned && a.key == key
  {
    if a :| a in artifacts && !a.cleaned && a.key == key {
      var i :| 0 <= i < |artifacts| && artifacts[i] == a;
    }
  }

  // What a run that reads all it needs at one moment may unlink: every file that is old enough, in
  // no row that counts and of no build whose lease owns its job; and nothing else.
  lemma UnlinkableIff(s: Site, key: Key)
    requires Safe(s)
    ensures Unlinkable(Apply(Apply(Apply(s, ReadClock), ReadActive), ReadReferenced), key) <==>
      && key in s.files && s.files[key] + s.minimumAge <= s.w.now
      && !(exists a :: a in s.w.db.artifacts && !a.cleaned && a.key == key)
      && !(key.owner.Some? && exists k :: 0 <= k < |s.w.issued| && HoldsBuild(s, k, key.task, key.owner.value))
  {
    ReferencedIff(s.w.db.artifacts, key);
    if key.owner.Some? {
      OnlyLiveLeasesAreSeen(s, key.task, key.owner.value);
    }
  }

  // A snapshot that shows the owner of a build's files as running shows its build as active, so
  // that its artifact is protected: what a restarted sweep of the publication relies on.
  lemma SnapshotProtectsOwners(s: Site, k: nat, id: L.Id, cutoff: int, referenced: set<Key>)
    requires Safe(s) && k < |s.w.issued| && s.w.issued[k].jobType.Build?
    ensures var view := P.View(cutoff, referenced, ActiveExecutions(s.w.db.jobs, s.w.now), ActiveBuilds(s.w.db.jobs, s.w.now));
      P.ActiveOwner(Some(s.w.issued[k].execution), view) ==> P.KeyProtected(L.KeyOf(s.w.issued[k], id), view)
  {
    var lease := s.w.issued[k];
    if lease.execution in ActiveExecutions(s.w.db.jobs, s.w.now) {
      var j: nat :| j < |s.w.db.jobs| && Live(s.w.db.jobs[j], s.w.now) && s.w.db.jobs[j].execution.value == lease.execution;
      LI.ShownExecution(s.w, j);
      assert LI.RunsUnder(s.w.issued, lease.execution, lease.job);
      LI.OneJobPerExecution(s.w, lease.execution, j, lease.job);
    }
  }

  // Reading changes nothing but the phase.
  lemma NewPhase(s: Site, phase: Phase)
    requires Safe(s)
    ensures KeysWritten(s.(phase := phase)) && FilesPresent(s.(phase := phase))
  {
    var s' := s.(phase := phase);
    forall key | key in s'.used
      ensures exists k: nat :: WrittenBy(s', key, k)
    {
      var k: nat :| WrittenBy(s, key, k);
      assert WrittenBy(s', key, k);
    }
    forall key | Committed(s', key) || Committable(s', key)
      ensures key in s'.files
    {
      if Committable(s', key) {
        var l: nat :| WrittenBy(s', key, l) && L.Owns(s.w.db, s.w.issued[l], s.w.now);
        assert WrittenBy(s, key, l);
        assert Committable(s, key);
      } else {
        assert Committed(s, key);
      }
    }
  }

  lemma ReadActiveKeeps(s: Site)
    requires Safe(s)
    ensures Safe(Apply(s, ReadActive))
  {
    if s.phase.ClockRead? {
      var s' := Apply(s, ReadActive);
      NewPhase(s, s'.phase);
      forall k | 0 <= k < |s.w.issued| && s.w.issued[k].jobType.Build?
        ensures LeaseCovered(s', s.phase.started, s'.phase.builds, k)
      {
        if L.Owns(s.w.db, s.w.issued[k], s.w.now) {
          LiveLeasesAreSeen(s, k);
        }
      }
    }
  }

  lemma ReadReferencedKeeps(s: Site)
    requires Safe(s)
    ensures Safe(Apply(s, ReadReferenced))
  {
    if s.phase.ActiveRead? {
      var s' := Apply(s, ReadReferenced);
      NewPhase(s, s'.phase);
      forall k | 0 <= k < |s.w.issued| && s.w.issued[k].jobType.Build?
        ensures LeaseCovered(s', s.phase.started, s'.phase.view.builds, k)
      {
        assert LeaseCovered(s, s.phase.started, s.phase.builds, k);
      }
    }
  }

  lemma ApplyKeeps(s: Site, m: Move)
    requires Safe(s)
    ensures Safe(Apply(s, m))
  {
    match m
    case Database(a) => if !a.Publish? && !a.MarkCleaned? { DatabaseKeeps(s, a); }
    case WriteFile(k, id, mtime) => WriteFileKeeps(s, k, id, mtime);
    case DropFile(key) => DropFileKeeps(s, key);
    case Record(k, id, status) => RecordKeeps(s, k, id, status);
    case FinishRetire(i) => if i < |s.w.db.artifacts| { FinishRetireKeeps(s, i); }
    case Unlink(key) => UnlinkKeeps(s, key);
    case Retire(i) => RetireKeeps(s, i);
    case ReadActive => ReadActiveKeeps(s);
    case ReadReferenced => ReadReferencedKeeps(s);
    case ReadClock => NewPhase(s, Apply(s, m).phase);
    case EndSweep => NewPhase(s, Idle);
  }

  lemma {:induction false} RunKeeps(s: Site, moves: seq<Move>)
    requires Safe(s)
    ensures Safe(Run(s, moves))
    decreases |moves|
  {
    if |moves| > 0 {
      ApplyKeeps(s, moves[0]);
      RunKeeps(Apply(s, moves[0]), moves[1..]);
    }
  }

  // In every run from the empty site: an artifact that is recorded and not retired has its file,
  // a file a live lease could still record is there, and the sweep unlinks neither kind.
  lemma ArtifactsAreSafe(now: nat, leaseSeconds: nat, minimumAge: nat, moves: seq<Move>, key: Key)
    requires leaseSeconds > 0 && minimumAge > 0
    ensures var s := Run(Init(now, leaseSeconds, minimumAge), moves);
      && (Committed(s, key) ==> key in s.files)
      && (Committable(s, key) ==> key in s.files)
      && (Unlinkable(s, key) ==> !Committed(s, key) && !Committable(s, key))
  {
    RunKeeps(Init(now, leaseSeconds, minimumAge), moves);
    var s := Run(Init(now, leaseSeconds, minimumAge), moves);
    if Unlinkable(s, key) {
      UnlinkableIsGarbage(s, key);
    }
  }

  // ---------------------------------------------------------------- what was swept stays unrecorded

  ghost predicate NeverRecordable(s: Site, key: Key) {
    && key in s.used && !Committable(s, key)
    && forall a :: a in s.w.db.artifacts && a.key == key ==> a.cleaned || key in s.retiring
  }

  // Ownership is never regained, so nor is the chance to record.
  lemma LaterStaysUncommittable(s: Site, s': Site, key: Key)
    requires Safe(s) && !Committable(s, key)
    requires s' == s || (Later(s, s') && LI.LeasesLinked(s'.w) && s'.inHand <= s.inHand)
    ensures !Committable(s', key)
  {
    if s' != s && Committable(s', key) {
      StillCommittable(s, s', key);
    }
  }

  lemma RowMoveStaysUncommittable(s: Site, m: Move, key: Key)
    requires Safe(s) && !Committable(s, key) && (m.Database? || m.Record? || m.FinishRetire?)
    ensures !Committable(Apply(s, m), key)
  {
    match m
    case Database(a) =>
      DatabaseIsLater(s, a);
      LaterStaysUncommittable(s, Apply(s, m), key);
    case Record(l, id, status) =>
      ArtifactsAfterPublishIsLater(s, l, id, status);
      LaterStaysUncommittable(s, Apply(s, m), key);
    case FinishRetire(i) =>
      DatabaseIsLater(s, L.MarkCleaned(i));
      LaterStaysUncommittable(s, Apply(s, m), key);
  }

  // A key in use is not given out again, and its writer is as dead or alive as before.
  lemma FileMoveStaysUncommittable(s: Site, s': Site, key: Key, writer: nat)
    requires Safe(s) && !Committable(s, key) && WrittenBy(s, key, writer)
    requires s'.w == s.w && (key in s'.inHand ==> key in s.inHand)
    ensures !Committable(s', key)
  {
    if Committable(s', key) {
      var k: nat :| WrittenBy(s', key, k) && L.Owns(s.w.db, s.w.issued[k], s.w.now);
      OwnKey(s, key, writer, k, key.id);
    }
  }

  lemma StaysUncommittable(s: Site, m: Move, key: Key, writer: nat)
    requires Safe(s) && NeverRecordable(s, key) && WrittenBy(s, key, writer)
    ensures !Committable(Apply(s, m), key)
  {
    if m.Database? || m.Record? || m.FinishRetire? {
      RowMoveStaysUncommittable(s, m, key);
    } else {
      FileMoveStaysUncommittable(s, Apply(s, m), key, writer);
    }
  }

  lemma StepKeepsUnrecordable(s: Site, m: Move, key: Key)
    requires Safe(s) && NeverRecordable(s, key)
    ensures NeverRecordable(Apply(s, m), key)
  {
    ApplyKeeps(s, m);
    var s' := Apply(s, m);
    var writer: nat :| WrittenBy(s, key, writer);
    StaysUncommittable(s, m, key, writer);
    forall a | a in s'.w.db.artifacts && a.key == key
      ensures a.cleaned || key in s'.retiring
    {
      RowsOf(s, m, key, a);
    }
  }

  lemma ArtifactsAfterPublishIsLater(s: Site, k: nat, id: L.Id, status: L.TaskStatus)
    requires Safe(s)
    ensures LI.LeasesLinked(RecordMove(s, k, id, status).w)
    ensures RecordMove(s, k, id, status) == s || Later(s, RecordMove(s, k, id, status))
    ensures RecordMove(s, k, id, status).inHand <= s.inHand
    ensures Later(s, s)
  {
    DatabaseIsLater(s, L.Publish(k, id, status));
  }

  // Publishing adds no row under it, its writer having lost the key.
  lemma RecordAddsNone(s: Site, k: nat, id: L.Id, status: L.TaskStatus, key: Key, a: L.Artifact)
    requires Safe(s) && NeverRecordable(s, key) && a.key == key
    requires a in RecordMove(s, k, id, status).w.db.artifacts
    ensures a in s.w.db.artifacts
  {
    if k < |s.w.issued| && L.KeyOf(s.w.issued[k], id) in s.inHand {
      ArtifactsAfterPublish(s.w, k, id, status);
      if a !in s.w.db.artifacts {
        var l: nat :| WrittenBy(s, key, l);
        OwnKey(s, key, l, k, id);
        assert false;
      }
    }
  }

  // A row under an unrecordable key is an old one.
  lemma RowsOf(s: Site, m: Move, key: Key, a: L.Artifact)
    requires Safe(s) && NeverRecordable(s, key)
    requires a in Apply(s, m).w.db.artifacts && a.key == key
    ensures a.cleaned || key in Apply(s, m).retiring
  {
    match m
    case Database(action) => ArtifactsAfter(s.w, action);
    case Record(k, id, status) => RecordAddsNone(s, k, id, status, key, a);
    case _ =>
  }

  // A key the sweep unlinked is never recorded in any continuation: its lease cannot come back.
  lemma {:induction false} SweptStaysUnrecorded(s: Site, moves: seq<Move>, key: Key)
    requires Safe(s) && NeverRecordable(s, key)
    ensures NeverRecordable(Run(s, moves), key) && !Committed(Run(s, moves), key)
    decreases |moves|
  {
    if |moves| > 0 {
      ApplyKeeps(s, moves[0]);
      StepKeepsUnrecordable(s, moves[0], key);
      SweptStaysUnrecorded(Apply(s, moves[0]), moves[1..], key);
    }
  }

  lemma UnlinkableIsUnrecordable(s: Site, key: Key)
    requires Safe(s) && Unlinkable(s, key)
    ensures NeverRecordable(s, key) && NeverRecordable(Apply(s, Unlink(key)), key)
  {
    UnlinkableIsGarbage(s, key);
    forall a | a in s.w.db.artifacts && a.key == key
      ensures a.cleaned || key in s.retiring
    {
      var i :| 0 <= i < |s.w.db.artifacts| && s.w.db.artifacts[i] == a;
    }
    StepKeepsUnrecordable(s, Unlink(key), key);
  }

  // ---------------------------------------------------------------- retention

  // What is being retired has no file any more, and will have none again.
  ghost predicate RetiredAreGone(s: Site) {
    && s.inHand <= s.used && s.retiring <= s.used
    && (forall key :: key in s.retiring ==> key !in s.files)
    && (forall a :: a in s.w.db.artifacts ==> a.key in s.used && (a.cleaned ==> a.key in s.retiring))
  }

  lemma OthersAddNoRow(w: L.World, a: L.Action)
    requires !a.Publish? && !a.MarkCleaned?
    ensures L.Apply(w, a).db.artifacts == w.db.artifacts
  {
  }

  lemma PublishAddsOneRow(w: L.World, k: nat, id: L.Id, status: L.TaskStatus)
    requires k < |w.issued|
    ensures var after := L.Apply(w, L.Publish(k, id, status)).db.artifacts;
      || after == w.db.artifacts
      || after == w.db.artifacts + [L.Artifact(id, w.issued[k].subject, L.KeyOf(w.issued[k], id), false)]
  {
  }

  lemma MoveKeepsRetired(s: Site, m: Move)
    requires RetiredAreGone(s)
    ensures RetiredAreGone(Apply(s, m))
  {
    match m
    case Database(a) => if !a.Publish? && !a.MarkCleaned? { OthersAddNoRow(s.w, a); }
    case Record(k, id, status) => if k < |s.w.issued| { PublishAddsOneRow(s.w, k, id, status); }
    case FinishRetire(i) => RetiringEnds(s, i);
    case _ =>
  }

  lemma RetiringEnds(s: Site, i: nat)
    requires RetiredAreGone(s)
    ensures RetiredAreGone(Apply(s, FinishRetire(i)))
  {
    var s' := Apply(s, FinishRetire(i));
    if s' != s {
      forall a | a in s'.w.db.artifacts
        ensures a.key in s.used && (a.cleaned ==> a.key in s.retiring)
      {
        var j: nat :| j < |s'.w.db.artifacts| && s'.w.db.artifacts[j] == a;
        assert s.w.db.artifacts[j] in s.w.db.artifacts && s.w.db.artifacts[i] in s.w.db.artifacts;
      }
    }
  }

  lemma {:induction false} RunKeepsRetired(s: Site, moves: seq<Move>)
    requires RetiredAreGone(s)
    ensures RetiredAreGone(Run(s, moves))
    decreases |moves|
  {
    if |moves| > 0 {
      MoveKeepsRetired(s, moves[0]);
      RunKeepsRetired(Apply(s, moves[0]), moves[1..]);
    }
  }

  // A row is marked as cleaned only after its file is gone, and the file never comes back.
  lemma CleanedHasNoFile(now: nat, leaseSeconds: nat, minimumAge: nat, moves: seq<Move>, artifact: L.Artifact)
    requires var s := Run(Init(now, leaseSeconds, minimumAge), moves); artifact in s.w.db.artifacts && artifact.cleaned
    ensures artifact.key !in Run(Init(now, leaseSeconds, minimumAge), moves).files
  {
    RunKeepsRetired(Init(now, leaseSeconds, minimumAge), moves);
  }
}
