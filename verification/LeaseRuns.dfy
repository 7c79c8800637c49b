/**
  The invariant of the lease protocol over whole runs, and what follows from it: fencing,
  agreement between jobs and their subjects, and terminal states that are never left.
 */
module LeaseRuns {
  import opened Options
  import opened Leases
  import opened LeaseInvariants

  // ---------------------------------------------------------------- fencing

  // A holder that does not own its job changes nothing at all and is never told it succeeded.
  lemma NonOwnerChangesNothing(w: World, a: Action)
    requires LeaseAction(a) && a.k < |w.issued| && !Owns(w.db, w.issued[a.k], w.now)
    ensures LeaseTx(w, a, w.issued[a.k]).db == w.db
    ensures LeaseTx(w, a, w.issued[a.k]).reply != Yes
    ensures Apply(w, a) == w
  {
  }

  lemma OwnerIsLatest(w: World, k: nat)
    requires Inv(w) && k < |w.issued| && Owns(w.db, w.issued[k], w.now)
    ensures Latest(w.issued, w.issued[k].job) == Some(k)
    ensures w.issued[k].attempts == w.db.jobs[w.issued[k].job].attempts
  {
    var j := w.issued[k].job;
    assert RowOk(w, j);
    var latest := Latest(w.issued, j).value;
    assert w.issued[latest].execution == w.issued[k].execution;
  }

  // Of all the leases ever issued, at most one owns a given job.
  lemma AtMostOneOwner(w: World, k: nat, l: nat)
    requires Inv(w) && k < |w.issued| && l < |w.issued|
    requires w.issued[k].job == w.issued[l].job
    requires Owns(w.db, w.issued[k], w.now) && Owns(w.db, w.issued[l], w.now)
    ensures k == l
  {
    OwnerIsLatest(w, k);
    OwnerIsLatest(w, l);
  }

  // ---------------------------------------------------------------- each action keeps the invariant

  lemma OwnedJob(w: World, k: nat)
    requires Inv(w) && k < |w.issued| && Owns(w.db, w.issued[k], w.now)
    ensures var lease := w.issued[k]; var j := lease.job;
      && RowOk(w, j) && SubjectOk(w, j) && w.db.jobs[j].status == Running
      && w.db.jobs[j].jobType == lease.jobType && w.db.jobs[j].subject == lease.subject
      && w.db.jobs[j].maxAttempts == lease.maxAttempts
      && w.db.jobs[j].execution == Some(lease.execution)
      && Latest(w.issued, j) == Some(k)
      && w.issued[Latest(w.issued, j).value] == lease
      && lease.attempts == w.db.jobs[j].attempts
  {
    OwnerIsLatest(w, k);
  }

  // An owner's step touches its own rows only, and can only keep or drop the execution shown.
  ghost predicate OwnRowsOnly(w: World, w': World, k: nat)
    requires k < |w.issued| && w.issued[k].job < |w.db.jobs|
  {
    var j := w.issued[k].job;
    && OnlyJob(w, w', j) && w'.now == w.now
    && (w'.db.jobs[j].execution.None? || w'.db.jobs[j].execution == w.db.jobs[j].execution)
  }

  // Its rows are replaced, each in its place, and nothing else.
  ghost predicate RowsReplaced(w: World, w': World, k: nat)
    requires k < |w.issued|
  {
    var j, t := w.issued[k].job, w.issued[k].subject;
    && w'.issued == w.issued && w'.leaseSeconds == w.leaseSeconds && w'.now == w.now
    && (w'.claimed == w.claimed || w'.claimed == w.claimed + {w.issued[k].execution})
    && j < |w'.db.jobs| == |w.db.jobs| && w'.db.jobs == w.db.jobs[j := w'.db.jobs[j]]
    && w'.db.jobs[j].jobType == w.db.jobs[j].jobType && w'.db.jobs[j].subject == w.db.jobs[j].subject
    && w'.db.jobs[j].maxAttempts == w.db.jobs[j].maxAttempts
    && (w'.db.jobs[j].execution.None? || w'.db.jobs[j].execution == w.db.jobs[j].execution)
    && (if w.issued[k].jobType.Build? then
          && t < |w'.db.tasks| == |w.db.tasks| && w'.db.tasks == w.db.tasks[t := w'.db.tasks[t]]
          && w'.db.files == w.db.files
          && (w'.db.artifacts == w.db.artifacts
              || exists a: Artifact :: a.task == t && w'.db.artifacts == w.db.artifacts + [a])
        else
          && t < |w'.db.files| == |w.db.files| && w'.db.files == w.db.files[t := w'.db.files[t]]
          && w'.db.tasks == w.db.tasks && w'.db.artifacts == w.db.artifacts)
  }

  lemma ReplacedAreOwn(w: World, w': World, k: nat)
    requires Inv(w) && k < |w.issued| && Owns(w.db, w.issued[k], w.now) && RowsReplaced(w, w', k)
    ensures OwnRowsOnly(w, w', k)
  {
    OwnedJob(w, k);
    forall i: nat | w'.db.artifacts != w.db.artifacts && i != w.issued[k].subject
      ensures ArtifactCount(w'.db.artifacts, i) == ArtifactCount(w.db.artifacts, i)
    {
      CountAfterStore(w.db.artifacts, w'.db.artifacts[|w.db.artifacts|], i);
    }
  }

  // An owner's step only has to be looked at on its own rows.
  ghost predicate Settles(w: World, w': World, k: nat)
    requires k < |w.issued|
  {
    && RowsReplaced(w, w', k)
    && w.issued[k].job < |w'.db.jobs| && RowOk(w', w.issued[k].job) && SubjectOk(w', w.issued[k].job)
  }

  lemma SettlingKeeps(w: World, w': World, k: nat)
    requires Inv(w) && k < |w.issued| && Owns(w.db, w.issued[k], w.now) && Settles(w, w', k)
    ensures Inv(w') && OwnRowsOnly(w, w', k)
  {
    ReplacedAreOwn(w, w', k);
    Reestablish(w, w', w.issued[k].job);
  }

  lemma HeartbeatSettles(w: World, k: nat)
    requires Inv(w) && k < |w.issued| && Owns(w.db, w.issued[k], w.now)
    ensures Settles(w, Apply(w, Heartbeat(k)), k)
  {
    OwnedJob(w, k);
  }

  lemma FailSettles(w: World, k: nat)
    requires Inv(w) && k < |w.issued| && Owns(w.db, w.issued[k], w.now)
    ensures Settles(w, Apply(w, Fail(k)), k)
  {
    OwnedJob(w, k);
  }

  lemma RetrySettles(w: World, k: nat, retryable: bool, delay: nat)
    requires Inv(w) && k < |w.issued| && Owns(w.db, w.issued[k], w.now)
    ensures Settles(w, Apply(w, Retry(k, retryable, delay)), k)
  {
    if retryable && w.issued[k].attempts < w.issued[k].maxAttempts {
      RequeueSettles(w, k, delay);
    } else {
      assert Apply(w, Retry(k, retryable, delay)) == Apply(w, Fail(k));
      FailSettles(w, k);
    }
  }

  lemma RequeueSettles(w: World, k: nat, delay: nat)
    requires Inv(w) && k < |w.issued| && Owns(w.db, w.issued[k], w.now)
    requires w.issued[k].attempts < w.issued[k].maxAttempts
    ensures Settles(w, Apply(w, Retry(k, true, delay)), k)
  {
    OwnedJob(w, k);
  }

  lemma ClaimParseSettles(w: World, k: nat)
    requires Inv(w) && k < |w.issued| && Owns(w.db, w.issued[k], w.now) && w.issued[k].jobType.Parse?
    ensures Settles(w, Apply(w, ClaimParse(k)), k)
  {
    OwnedJob(w, k);
  }

  lemma CompleteParseSettles(w: World, k: nat)
    requires Inv(w) && k < |w.issued| && Owns(w.db, w.issued[k], w.now) && w.issued[k].jobType.Parse?
    ensures Settles(w, Apply(w, CompleteParse(k)), k)
  {
    OwnedJob(w, k);
  }

  lemma ClaimBuildSettles(w: World, k: nat)
    requires Inv(w) && k < |w.issued| && Owns(w.db, w.issued[k], w.now) && w.issued[k].jobType.Build?
    ensures Settles(w, Apply(w, ClaimBuild(k)), k)
  {
    OwnedJob(w, k);
    var lease := w.issued[k];
    var task := w.db.tasks[lease.subject];
    if !ValidBinding(w.db, task) || !(StartsFresh(lease, task) || TakesOver(lease, task)) {
      assert ClaimBuildTx(w.db, lease, w.now) == Tx(FailTx(w.db, lease, w.now).db, No);
      assert Apply(w, ClaimBuild(k)) == Apply(w, Fail(k));
      FailSettles(w, k);
    } else if !task.snapshotOk {
      ClaimOfBadSnapshotSettles(w, k);
    } else {
      ClaimOfGoodSnapshotSettles(w, k);
    }
  }

  // A malformed target snapshot is noticed only after the task was bound; both rows then fail.
  lemma ClaimOfBadSnapshotSettles(w: World, k: nat)
    requires Inv(w) && k < |w.issued| && Owns(w.db, w.issued[k], w.now) && w.issued[k].jobType.Build?
    requires var lease := w.issued[k];
      && lease.subject < |w.db.tasks|
      && var task := w.db.tasks[lease.subject];
      && ValidBinding(w.db, task) && (StartsFresh(lease, task) || TakesOver(lease, task)) && !task.snapshotOk
    ensures Settles(w, Apply(w, ClaimBuild(k)), k)
  {
    OwnedJob(w, k);
  }

  lemma ClaimOfGoodSnapshotSettles(w: World, k: nat)
    requires Inv(w) && k < |w.issued| && Owns(w.db, w.issued[k], w.now) && w.issued[k].jobType.Build?
    requires var lease := w.issued[k];
      && lease.subject < |w.db.tasks|
      && var task := w.db.tasks[lease.subject];
      && ValidBinding(w.db, task) && (StartsFresh(lease, task) || TakesOver(lease, task)) && task.snapshotOk
    ensures Settles(w, Apply(w, ClaimBuild(k)), k)
  {
    OwnedJob(w, k);
  }

  lemma CancelSettles(w: World, k: nat)
    requires Inv(w) && k < |w.issued| && Owns(w.db, w.issued[k], w.now) && w.issued[k].jobType.Build?
    ensures Settles(w, Apply(w, Cancel(k)), k)
  {
    OwnedJob(w, k);
  }

  lemma AdvanceSettles(w: World, k: nat, status: TaskStatus)
    requires Inv(w) && k < |w.issued| && Owns(w.db, w.issued[k], w.now) && w.issued[k].jobType.Build?
    ensures Settles(w, Apply(w, Advance(k, status)), k)
  {
    OwnedJob(w, k);
  }

  // Logs and package rows are no part of the invariant.
  lemma LogSettles(w: World, k: nat)
    requires Inv(w) && k < |w.issued| && Owns(w.db, w.issued[k], w.now)
    ensures Settles(w, Apply(w, Log(k)), k)
  {
    OwnedJob(w, k);
  }

  lemma PersistSettles(w: World, k: nat, rows: seq<Id>)
    requires Inv(w) && k < |w.issued| && Owns(w.db, w.issued[k], w.now)
    ensures Settles(w, Apply(w, Persist(k, rows)), k)
  {
    OwnedJob(w, k);
  }

  lemma PublishSettles(w: World, k: nat, id: Id, status: TaskStatus)
    requires Inv(w) && k < |w.issued| && Owns(w.db, w.issued[k], w.now) && w.issued[k].jobType.Build?
    requires Apply(w, Publish(k, id, status)) != w
    ensures Settles(w, Apply(w, Publish(k, id, status)), k)
  {
    OwnedJob(w, k);
    var artifact := Artifact(id, w.issued[k].subject, KeyOf(w.issued[k], id), false);
    CountAfterStore(w.db.artifacts, artifact, w.issued[k].subject);
    assert Apply(w, Publish(k, id, status)).db.artifacts == w.db.artifacts + [artifact];
  }

  lemma PublishEffect(w: World, k: nat, id: Id, status: TaskStatus)
    requires Inv(w) && k < |w.issued| && Owns(w.db, w.issued[k], w.now) && w.issued[k].jobType.Build?
    requires Apply(w, Publish(k, id, status)) != w
    ensures var lease := w.issued[k];
      var w' := Apply(w, Publish(k, id, status));
      && lease.job < |w'.db.jobs| && lease.subject < |w'.db.tasks|
      && w'.db.jobs[lease.job].status == Completed && w'.db.tasks[lease.subject].status == status
      && w'.db.artifacts == w.db.artifacts + [Artifact(id, lease.subject, KeyOf(lease, id), false)]
  {
    OwnedJob(w, k);
  }

  // A publication completes the job and its task together, with the one artifact row of the
  // task, or changes nothing.
  lemma PublishKeeps(w: World, k: nat, id: Id, status: TaskStatus)
    requires Inv(w) && k < |w.issued| && Owns(w.db, w.issued[k], w.now) && w.issued[k].jobType.Build?
    ensures var lease := w.issued[k];
      var w' := Apply(w, Publish(k, id, status));
      && Inv(w') && OwnRowsOnly(w, w', k)
      && (w' != w ==>
            && w'.db.jobs[lease.job].status == Completed && w'.db.tasks[lease.subject].status == status
            && w'.db.artifacts == w.db.artifacts + [Artifact(id, lease.subject, KeyOf(lease, id), false)]
            && ArtifactCount(w'.db.artifacts, lease.subject) == 1)
  {
    var w' := Apply(w, Publish(k, id, status));
    if w' == w {
      NothingSettles(w, k);
    } else {
      PublishSettles(w, k, id, status);
      PublishEffect(w, k, id, status);
    }
    SettlingKeeps(w, w', k);
  }

  lemma OwnerSettles(w: World, a: Action)
    requires Inv(w) && LeaseAction(a) && a.k < |w.issued| && Owns(w.db, w.issued[a.k], w.now)
    requires w.issued[a.k].jobType.Build? && !a.ClaimParse? && !a.CompleteParse?
    ensures Settles(w, Apply(w, a), a.k)
  {
    match a
    case Heartbeat(k) => HeartbeatSettles(w, k);
    case Fail(k) => FailSettles(w, k);
    case Retry(k, retryable, delay) => RetrySettles(w, k, retryable, delay);
    case ClaimBuild(k) => ClaimBuildSettles(w, k);
    case Cancel(k) => CancelSettles(w, k);
    case Publish(k, id, status) =>
      if Apply(w, a) == w {
        NothingSettles(w, k);
      } else {
        PublishSettles(w, k, id, status);
      }
    case Advance(k, status) => AdvanceSettles(w, k, status);
    case Log(k) => LogSettles(w, k);
    case Persist(k, rows) => PersistSettles(w, k, rows);
  }

  lemma ParserSettles(w: World, a: Action)
    requires Inv(w) && LeaseAction(a) && a.k < |w.issued| && Owns(w.db, w.issued[a.k], w.now)
    requires w.issued[a.k].jobType.Parse?
    ensures Settles(w, Apply(w, a), a.k)
  {
    var lease := a.k;
    match a
    case Heartbeat(k) => HeartbeatSettles(w, k);
    case Fail(k) => FailSettles(w, k);
    case Retry(k, retryable, delay) => RetrySettles(w, k, retryable, delay);
    case ClaimParse(k) => ClaimParseSettles(w, k);
    case CompleteParse(k) => CompleteParseSettles(w, k);
    case _ => NothingSettles(w, lease);
  }

  lemma NothingSettles(w: World, k: nat)
    requires Inv(w) && k < |w.issued| && Owns(w.db, w.issued[k], w.now)
    ensures Settles(w, w, k)
  {
    OwnedJob(w, k);
  }

  lemma LeaseActionKeeps(w: World, a: Action)
    requires Inv(w) && LeaseAction(a) && a.k < |w.issued|
    ensures Inv(Apply(w, a))
    ensures OwnRowsOnly(w, Apply(w, a), a.k)
  {
    if !Owns(w.db, w.issued[a.k], w.now) {
      NonOwnerChangesNothing(w, a);
    } else {
      if w.issued[a.k].jobType.Parse? {
        ParserSettles(w, a);
      } else if a.ClaimParse? || a.CompleteParse? {
        NothingSettles(w, a.k);
      } else {
        OwnerSettles(w, a);
      }
      SettlingKeeps(w, Apply(w, a), a.k);
    }
  }

  // ---------------------------------------------------------------- claiming and the environment

  // Granting a candidate row: a new lease for it, and every other row as it was.
  lemma GrantKeeps(w: World, j: nat, worker: Id, execution: Id)
    requires Inv(w) && FreshExecution(w, execution) && j < |w.db.jobs|
    requires w.db.jobs[j].status == Ready || w.db.jobs[j].status == Running
    requires w.db.jobs[j].attempts < w.db.jobs[j].maxAttempts
    ensures Inv(w.(db := Grant(w.db, j, worker, execution, w.now + w.leaseSeconds),
                   issued := w.issued + [LeaseFor(w.db, j, worker, execution)]))
  {
    var lease := LeaseFor(w.db, j, worker, execution);
    var w' := w.(db := Grant(w.db, j, worker, execution, w.now + w.leaseSeconds), issued := w.issued + [lease]);
    assert RowOk(w, j) && SubjectOk(w, j);
    forall i | 0 <= i < |w.db.jobs|
      ensures RowOk(w', i) && SubjectOk(w', i)
    {
      if i == j {
        GrantedRow(w, j, worker, execution);
      } else {
        assert RowOk(w, i) && SubjectOk(w, i);
        CountAfterIssue(w.issued, lease, i);
      }
    }
    GrantLinks(w, j, worker, execution);
    forall e | e in w'.claimed
      ensures exists k :: 0 <= k < |w'.issued| && w'.issued[k].execution == e
    {
      var k :| 0 <= k < |w.issued| && w.issued[k].execution == e;
      assert w'.issued[k].execution == e;
    }
  }

  lemma GrantedRow(w: World, j: nat, worker: Id, execution: Id)
    requires Inv(w) && FreshExecution(w, execution) && j < |w.db.jobs|
    requires w.db.jobs[j].status == Ready || w.db.jobs[j].status == Running
    requires w.db.jobs[j].attempts < w.db.jobs[j].maxAttempts
    ensures var w' := w.(db := Grant(w.db, j, worker, execution, w.now + w.leaseSeconds),
                         issued := w.issued + [LeaseFor(w.db, j, worker, execution)]);
      RowOk(w', j) && SubjectOk(w', j)
  {
    var lease := LeaseFor(w.db, j, worker, execution);
    var w' := w.(db := Grant(w.db, j, worker, execution, w.now + w.leaseSeconds), issued := w.issued + [lease]);
    assert RowOk(w, j) && SubjectOk(w, j);
    CountAfterIssue(w.issued, lease, j);
    assert RowOk(w', j);
    assert execution !in w.claimed;
    if w.db.jobs[j].jobType.Build? {
      assert HolderOk(w', j);
    }
  }

  lemma GrantLinks(w: World, j: nat, worker: Id, execution: Id)
    requires Inv(w) && FreshExecution(w, execution) && j < |w.db.jobs|
    ensures LeasesLinked(w.(db := Grant(w.db, j, worker, execution, w.now + w.leaseSeconds),
                            issued := w.issued + [LeaseFor(w.db, j, worker, execution)]))
  {
    var lease := LeaseFor(w.db, j, worker, execution);
    var issued := w.issued + [lease];
    forall k | 0 <= k < |issued| && issued[k].previous.Some?
      ensures RunsUnder(issued, issued[k].previous.value, issued[k].job)
    {
      if k < |w.issued| {
        assert RunsUnder(w.issued, issued[k].previous.value, issued[k].job);
      } else {
        ShownExecution(w, j);
      }
      var l :| 0 <= l < |w.issued| && w.issued[l].execution == issued[k].previous.value && w.issued[l].job == issued[k].job;
      assert issued[l] == w.issued[l];
    }
  }

  lemma ExhaustKeeps(w: World, j: nat)
    requires Inv(w) && j < |w.db.jobs|
    requires w.db.jobs[j].status == Ready || w.db.jobs[j].status == Running
    ensures Inv(w.(db := FailJob(w.db, j)))
  {
    assert RowOk(w, j) && SubjectOk(w, j);
    Reestablish(w, w.(db := FailJob(w.db, j)), j);
  }

  lemma ClaimNextKeeps(w: World, worker: Id, execution: Id)
    requires Inv(w)
    ensures Inv(Apply(w, ClaimNext(worker, execution)))
  {
    var row := Candidate(w.db.jobs, w.now);
    if FreshExecution(w, execution) && row.Some? {
      if w.db.jobs[row.value].attempts >= w.db.jobs[row.value].maxAttempts {
        ExhaustKeeps(w, row.value);
      } else {
        GrantKeeps(w, row.value, worker, execution);
      }
    }
  }

  // The rows already there keep their part of the invariant, and the new one starts with it.
  lemma SubmitParseRow(w: World, priority: int, maxAttempts: nat, j: nat)
    requires Inv(w) && maxAttempts > 0 && j <= |w.db.jobs|
    ensures var w' := Apply(w, SubmitParse(priority, maxAttempts)); j < |w'.db.jobs| && RowOk(w', j) && SubjectOk(w', j)
  {
    if j < |w.db.jobs| {
      assert RowOk(w, j) && SubjectOk(w, j);
    } else {
      NoLeases(w.issued, |w.db.jobs|);
    }
  }

  lemma SubmitParseKeeps(w: World, priority: int, maxAttempts: nat)
    requires Inv(w) && maxAttempts > 0
    ensures Inv(Apply(w, SubmitParse(priority, maxAttempts)))
  {
    var w' := Apply(w, SubmitParse(priority, maxAttempts));
    forall j | 0 <= j < |w'.db.jobs|
      ensures RowOk(w', j) && SubjectOk(w', j)
    {
      SubmitParseRow(w, priority, maxAttempts, j);
    }
  }

  lemma SubmitBuildRow(w: World, a: Action, j: nat)
    requires Inv(w) && a.SubmitBuild? && a.maxAttempts > 0 && j <= |w.db.jobs|
    ensures var w' := Apply(w, a); j < |w'.db.jobs| && RowOk(w', j) && SubjectOk(w', j)
  {
    if j < |w.db.jobs| {
      assert RowOk(w, j) && SubjectOk(w, j);
    } else {
      NoLeases(w.issued, |w.db.jobs|);
      NoArtifacts(w.db.artifacts, |w.db.tasks|);
    }
  }

  lemma SubmitBuildKeeps(w: World, a: Action)
    requires Inv(w) && a.SubmitBuild? && a.maxAttempts > 0
    ensures Inv(Apply(w, a))
  {
    var w' := Apply(w, a);
    forall j | 0 <= j < |w'.db.jobs|
      ensures RowOk(w', j) && SubjectOk(w', j)
    {
      SubmitBuildRow(w, a, j);
    }
  }

  lemma RequestCancelKeeps(w: World, j: nat)
    requires Inv(w)
    ensures Inv(Apply(w, RequestCancel(j)))
  {
    if j < |w.db.jobs| && w.db.jobs[j].jobType.Build? {
      assert RowOk(w, j) && SubjectOk(w, j);
      Reestablish(w, Apply(w, RequestCancel(j)), j);
    }
  }

  lemma MarkCleanedKeeps(w: World, i: nat)
    requires Inv(w)
    ensures Inv(Apply(w, MarkCleaned(i)))
  {
    var w' := Apply(w, MarkCleaned(i));
    forall j | 0 <= j < |w'.db.jobs|
      ensures RowOk(w', j) && SubjectOk(w', j)
    {
      assert RowOk(w, j) && SubjectOk(w, j);
      if i < |w.db.artifacts| {
        CountAfterClean(w.db.artifacts, i, w.db.jobs[j].subject);
      }
    }
  }

  lemma UnbindAndTickKeep(w: World, a: Action)
    requires Inv(w) && (a.Unbind? || a.Tick?)
    ensures Inv(Apply(w, a))
  {
    var w' := Apply(w, a);
    forall j | 0 <= j < |w'.db.jobs|
      ensures RowOk(w', j) && SubjectOk(w', j)
    {
      assert RowOk(w, j) && SubjectOk(w, j);
    }
  }

  lemma ApplyKeeps(w: World, a: Action)
    requires Inv(w)
    ensures Inv(Apply(w, a))
  {
    match a
    case Tick(_) => UnbindAndTickKeep(w, a);
    case Unbind(_) => UnbindAndTickKeep(w, a);
    case MarkCleaned(i) => MarkCleanedKeeps(w, i);
    case ClaimNext(worker, execution) => ClaimNextKeeps(w, worker, execution);
    case SubmitParse(priority, maxAttempts) => if maxAttempts > 0 { SubmitParseKeeps(w, priority, maxAttempts); }
    case SubmitBuild(_, _, _, _, maxAttempts) => if maxAttempts > 0 { SubmitBuildKeeps(w, a); }
    case RequestCancel(j) => RequestCancelKeeps(w, j);
    case _ => if a.k < |w.issued| { LeaseActionKeeps(w, a); }
  }

  // Every run from an empty database, by any number of workers and callers, keeps the invariant.
  lemma {:induction false} RunKeeps(w: World, actions: seq<Action>)
    requires Inv(w)
    ensures Inv(Run(w, actions))
    decreases |actions|
  {
    if |actions| > 0 {
      ApplyKeeps(w, actions[0]);
      RunKeeps(Apply(w, actions[0]), actions[1..]);
    }
  }
}
