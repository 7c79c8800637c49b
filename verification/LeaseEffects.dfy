/**
  What an owner's operation does to the stored rows, exactly: when it takes effect, which columns
  it writes then, and that it leaves everything as it was otherwise.  A retry's delay is honoured
  by every run that follows.
 */
module LeaseEffects {
  import opened Options
  import opened Leases
  import opened LeaseInvariants
  import opened LeaseRuns
  import opened LeaseTheorems

  // The row once its lease is over.
  function Released(job: Job, status: JobStatus): Job {
    Job(job.jobType, job.subject, status, job.priority, job.createdAt, job.availableAt,
        job.attempts, job.maxAttempts, None, None, None)
  }

  ghost predicate Owner(w: World, k: nat) {
    Inv(w) && k < |w.issued| && Owns(w.db, w.issued[k], w.now)
  }

  ghost predicate BuildOwner(w: World, k: nat) { Owner(w, k) && w.issued[k].jobType.Build? }

  ghost predicate ParseOwner(w: World, k: nat) { Owner(w, k) && w.issued[k].jobType.Parse? }

  // The lease's job and task now read so, and no other job or task row is different.
  ghost predicate BuildRows(w: World, w': World, k: nat, job: Job, task: Task)
    requires k < |w.issued|
  {
    var lease := w.issued[k];
    && lease.job < |w.db.jobs| && lease.subject < |w.db.tasks|
    && w'.db.jobs == w.db.jobs[lease.job := job]
    && w'.db.tasks == w.db.tasks[lease.subject := task]
    && w'.db.files == w.db.files && w'.issued == w.issued && w'.now == w.now
  }

  ghost predicate ParseRows(w: World, w': World, k: nat, job: Job, file: ParseStatus)
    requires k < |w.issued|
  {
    var lease := w.issued[k];
    && lease.job < |w.db.jobs| && lease.subject < |w.db.files|
    && w'.db.jobs == w.db.jobs[lease.job := job]
    && w'.db.files == w.db.files[lease.subject := file]
    && w'.db.tasks == w.db.tasks && w'.issued == w.issued && w'.now == w.now
  }

  ghost predicate SameRecords(w: World, w': World) {
    w'.db.artifacts == w.db.artifacts && w'.db.logs == w.db.logs && w'.db.packages == w.db.packages
  }

  function JobOf(w: World, k: nat): Job
    requires k < |w.issued| && w.issued[k].job < |w.db.jobs|
  {
    w.db.jobs[w.issued[k].job]
  }

  function TaskOf(w: World, k: nat): Task
    requires k < |w.issued| && w.issued[k].subject < |w.db.tasks|
  {
    w.db.tasks[w.issued[k].subject]
  }

  function FileOf(w: World, k: nat): ParseStatus
    requires k < |w.issued| && w.issued[k].subject < |w.db.files|
  {
    w.db.files[w.issued[k].subject]
  }

  // The subject a live job works on has not ended, and shows this lease exactly if it claimed it.
  lemma LiveSubject(w: World, k: nat)
    requires Owner(w, k)
    ensures w.issued[k].job < |w.db.jobs| && JobOf(w, k).attempts == w.issued[k].attempts
    ensures JobOf(w, k).maxAttempts == w.issued[k].maxAttempts
    ensures w.issued[k].jobType.Build? ==>
      && w.issued[k].subject < |w.db.tasks| && !TerminalTask(TaskOf(w, k).status)
      && (TaskOf(w, k).status == Queued <==> TaskOf(w, k).execution.None?)
      && (HoldsTask(w.db, w.issued[k]) <==> w.issued[k].execution in w.claimed)
    ensures w.issued[k].jobType.Parse? ==>
      w.issued[k].subject < |w.db.files| && (FileOf(w, k) == Pending || FileOf(w, k) == Parsing)
  {
    OwnedJob(w, k);
  }

  // ---------------------------------------------------------------- failing and retrying

  lemma FailedBuild(w: World, k: nat)
    requires BuildOwner(w, k)
    ensures BuildRows(w, Apply(w, Fail(k)), k, Released(JobOf(w, k), Failed), TaskOf(w, k).(status := TaskFailed))
    ensures SameRecords(w, Apply(w, Fail(k))) && LeaseTx(w, Fail(k), w.issued[k]).reply == Yes
  {
    LiveSubject(w, k);
  }

  lemma FailedParse(w: World, k: nat)
    requires ParseOwner(w, k)
    ensures ParseRows(w, Apply(w, Fail(k)), k, Released(JobOf(w, k), Failed), ParseFailed)
    ensures SameRecords(w, Apply(w, Fail(k))) && LeaseTx(w, Fail(k), w.issued[k]).reply == Yes
  {
    LiveSubject(w, k);
  }

  // Whoever fails an error fails job and subject together, once and for all.
  ghost predicate EndedAsFailed(w: World, w': World, k: nat)
    requires k < |w.issued|
  {
    && w.issued[k].job < |w.db.jobs|
    && if w.issued[k].jobType.Build? then
         && w.issued[k].subject < |w.db.tasks|
         && BuildRows(w, w', k, Released(JobOf(w, k), Failed), TaskOf(w, k).(status := TaskFailed))
       else ParseRows(w, w', k, Released(JobOf(w, k), Failed), ParseFailed)
  }

  lemma FailEndsBoth(w: World, k: nat)
    requires Owner(w, k)
    ensures EndedAsFailed(w, Apply(w, Fail(k)), k) && SameRecords(w, Apply(w, Fail(k)))
    ensures LeaseTx(w, Fail(k), w.issued[k]).reply == Yes
  {
    if w.issued[k].jobType.Build? {
      FailedBuild(w, k);
    } else {
      FailedParse(w, k);
    }
  }

  // A requeued job keeps its attempts and waits out the delay; its subject is free again where
  // this lease held it.
  ghost predicate Requeued(w: World, w': World, k: nat, delay: nat)
    requires k < |w.issued|
  {
    && w.issued[k].job < |w.db.jobs|
    && var ready := Released(JobOf(w, k), Ready).(availableAt := w.now + delay);
    && if w.issued[k].jobType.Build? then
         && w.issued[k].subject < |w.db.tasks|
         && BuildRows(w, w', k, ready,
                      if w.issued[k].execution in w.claimed then TaskOf(w, k).(execution := None, status := Queued)
                      else TaskOf(w, k))
       else ParseRows(w, w', k, ready, Pending)
  }

  lemma RequeuedBuild(w: World, k: nat, delay: nat)
    requires BuildOwner(w, k) && w.issued[k].attempts < w.issued[k].maxAttempts
    ensures Requeued(w, Apply(w, Retry(k, true, delay)), k, delay)
    ensures SameRecords(w, Apply(w, Retry(k, true, delay)))
    ensures LeaseTx(w, Retry(k, true, delay), w.issued[k]).reply == Yes
  {
    LiveSubject(w, k);
  }

  lemma RequeuedParse(w: World, k: nat, delay: nat)
    requires ParseOwner(w, k) && w.issued[k].attempts < w.issued[k].maxAttempts
    ensures Requeued(w, Apply(w, Retry(k, true, delay)), k, delay)
    ensures SameRecords(w, Apply(w, Retry(k, true, delay)))
    ensures LeaseTx(w, Retry(k, true, delay), w.issued[k]).reply == Yes
  {
    LiveSubject(w, k);
  }

  // An owner's retry requeues its job exactly when the error may be retried and an attempt is
  // left; any other ends job and subject as failed.
  lemma RetryIff(w: World, k: nat, retryable: bool, delay: nat)
    requires Owner(w, k)
    ensures var w' := Apply(w, Retry(k, retryable, delay));
      var again := retryable && w.issued[k].attempts < w.issued[k].maxAttempts;
      && w.issued[k].job < |w'.db.jobs|
      && (w'.db.jobs[w.issued[k].job].status == Ready <==> again)
      && (w'.db.jobs[w.issued[k].job].status == Failed <==> !again)
      && (if again then Requeued(w, w', k, delay) else EndedAsFailed(w, w', k))
      && SameRecords(w, w') && LeaseTx(w, Retry(k, retryable, delay), w.issued[k]).reply == Yes
  {
    if retryable && w.issued[k].attempts < w.issued[k].maxAttempts {
      if w.issued[k].jobType.Build? {
        RequeuedBuild(w, k, delay);
      } else {
        RequeuedParse(w, k, delay);
      }
    } else {
      assert Apply(w, Retry(k, retryable, delay)) == Apply(w, Fail(k));
      FailEndsBoth(w, k);
    }
  }

  // ---------------------------------------------------------------- the delay is waited out

  // No lease was handed out for the job, and its row is the same; or it was cancelled meanwhile.
  ghost predicate StillWaiting(w: World, w': World, j: nat)
    requires j < |w.db.jobs|
  {
    && w.issued <= w'.issued && (forall l :: |w.issued| <= l < |w'.issued| ==> w'.issued[l].job != j)
    && j < |w'.db.jobs|
    && (w'.db.jobs[j] == w.db.jobs[j] || w'.db.jobs[j] == w.db.jobs[j].(status := Cancelled))
  }

  lemma NobodyOwnsReady(w: World, a: Action, j: nat)
    requires Inv(w) && j < |w.db.jobs| && w.db.jobs[j].status == Ready
    requires LeaseAction(a) && a.k < |w.issued|
    ensures Apply(w, a).db.jobs == w.db.jobs
         || (|Apply(w, a).db.jobs| == |w.db.jobs| && Apply(w, a).db.jobs[j] == w.db.jobs[j])
    ensures Apply(w, a).issued == w.issued
  {
    if !Owns(w.db, w.issued[a.k], w.now) {
      NonOwnerChangesNothing(w, a);
    } else {
      LeaseActionKeeps(w, a);
    }
  }

  lemma ClaimPassesOver(w: World, a: Action, j: nat)
    requires j < |w.db.jobs| && w.db.jobs[j].status == Ready && w.now < w.db.jobs[j].availableAt && a.ClaimNext?
    ensures StillWaiting(w, Apply(w, a), j)
  {
    assert Candidate(w.db.jobs, w.now) != Some(j);
  }

  lemma StepWaits(w: World, a: Action, j: nat)
    requires Inv(w) && j < |w.db.jobs|
    requires w.db.jobs[j].status == Ready && w.now < w.db.jobs[j].availableAt
    ensures StillWaiting(w, Apply(w, a), j)
  {
    if LeaseAction(a) {
      if a.k < |w.issued| {
        NobodyOwnsReady(w, a, j);
      }
    } else if a.ClaimNext? {
      ClaimPassesOver(w, a, j);
    }
  }

  // A cancelled job is never leased either.
  lemma StepAfterCancel(w: World, a: Action, j: nat)
    requires Inv(w) && j < |w.db.jobs| && w.db.jobs[j].status == Cancelled
    ensures StillWaiting(w, Apply(w, a), j) && Apply(w, a).db.jobs[j] == w.db.jobs[j]
  {
    StepKeepsTerminalJob(w, a, j);
    if LeaseAction(a) && a.k < |w.issued| {
      LeaseActionKeeps(w, a);
    }
  }

  // Whatever anybody does, no run hands out a job before the moment from which it is available.
  lemma {:induction false} DelayIsHonoured(w: World, actions: seq<Action>, j: nat)
    requires Inv(w) && j < |w.db.jobs|
    requires w.db.jobs[j].status == Ready || w.db.jobs[j].status == Cancelled
    requires Run(w, actions).now < w.db.jobs[j].availableAt
    ensures StillWaiting(w, Run(w, actions), j)
    decreases |actions|
  {
    if |actions| > 0 {
      var next := Apply(w, actions[0]);
      ClockOnlyAdvances(next, actions[1..]);
      ClockOnlyAdvances(w, [actions[0]]);
      assert Run(w, [actions[0]]) == Run(next, []) == next;
      ApplyKeeps(w, actions[0]);
      if w.db.jobs[j].status == Ready {
        StepWaits(w, actions[0], j);
      } else {
        StepAfterCancel(w, actions[0], j);
      }
      DelayIsHonoured(next, actions[1..], j);
      var end := Run(w, actions);
      forall l | |w.issued| <= l < |end.issued|
        ensures end.issued[l].job != j
      {
        assert l < |next.issued| ==> end.issued[l] == next.issued[l];
      }
    }
  }

  // So nobody, this owner included, is granted a retried job before its delay has passed.
  lemma RetryWaits(w: World, k: nat, delay: nat, actions: seq<Action>)
    requires Owner(w, k) && w.issued[k].attempts < w.issued[k].maxAttempts
    requires Run(Apply(w, Retry(k, true, delay)), actions).now < w.now + delay
    ensures var retried := Apply(w, Retry(k, true, delay));
      w.issued[k].job < |retried.db.jobs| && StillWaiting(retried, Run(retried, actions), w.issued[k].job)
  {
    RetryIff(w, k, true, delay);
    ApplyKeeps(w, Retry(k, true, delay));
    DelayIsHonoured(Apply(w, Retry(k, true, delay)), actions, w.issued[k].job);
  }

  // ---------------------------------------------------------------- claiming the subject

  lemma ClaimedBuild(w: World, k: nat)
    requires BuildOwner(w, k)
    requires ClaimBuildTx(w.db, w.issued[k], w.now).reply == Yes
    ensures w.issued[k].subject < |w.db.tasks| && w.issued[k].job < |w.db.jobs|
    ensures var w' := Apply(w, ClaimBuild(k)); var execution := w.issued[k].execution;
      && BuildRows(w, w', k, JobOf(w, k), TaskOf(w, k).(execution := Some(execution), status := Resolving))
      && SameRecords(w, w') && w'.claimed == w.claimed + {execution}
  {
    LiveSubject(w, k);
    var w' := Apply(w, ClaimBuild(k));
    assert w'.db.jobs == w.db.jobs[w.issued[k].job := JobOf(w, k)];
  }

  // A claim turned away after the task was bound still fails both rows; the task then shows the
  // execution that tried.
  lemma RefusedBuild(w: World, k: nat)
    requires BuildOwner(w, k)
    requires ClaimBuildTx(w.db, w.issued[k], w.now).reply != Yes
    ensures w.issued[k].subject < |w.db.tasks| && w.issued[k].job < |w.db.jobs|
    ensures var w' := Apply(w, ClaimBuild(k));
      && (exists shown :: BuildRows(w, w', k, Released(JobOf(w, k), Failed),
                                    TaskOf(w, k).(execution := shown, status := TaskFailed)))
      && SameRecords(w, w') && w'.claimed == w.claimed
  {
    LiveSubject(w, k);
    var task, shown := TaskOf(w, k), Apply(w, ClaimBuild(k)).db.tasks[w.issued[k].subject].execution;
    assert BuildRows(w, Apply(w, ClaimBuild(k)), k, Released(JobOf(w, k), Failed),
                     task.(execution := shown, status := TaskFailed));
  }

  // The owner's claim is granted exactly when the file is parsed and the binding and snapshot
  // are good, and the task is either queued, for a first lease, or shows the replaced execution.
  lemma ClaimBuildIff(w: World, k: nat)
    requires BuildOwner(w, k)
    ensures w.issued[k].subject < |w.db.tasks|
    ensures var lease, task := w.issued[k], TaskOf(w, k);
      ClaimBuildTx(w.db, lease, w.now).reply == Yes
      <==> && task.wellBound && task.file < |w.db.files| && w.db.files[task.file] == Parsed && task.snapshotOk
           && if lease.reclaimed then lease.previous.Some? && task.execution == lease.previous else task.status == Queued
  {
    LiveSubject(w, k);
  }

  lemma ClaimParseIff(w: World, k: nat)
    requires ParseOwner(w, k)
    ensures w.issued[k].subject < |w.db.files| && w.issued[k].job < |w.db.jobs|
    ensures var lease, w' := w.issued[k], Apply(w, ClaimParse(k));
      var granted := if lease.reclaimed then lease.previous.Some? && FileOf(w, k) == Parsing else FileOf(w, k) == Pending;
      && (LeaseTx(w, ClaimParse(k), lease).reply == Yes <==> granted)
      && (if granted then ParseRows(w, w', k, JobOf(w, k), Parsing) else EndedAsFailed(w, w', k))
      && SameRecords(w, w')
  {
    LiveSubject(w, k);
    assert w.db.jobs == w.db.jobs[w.issued[k].job := JobOf(w, k)];
  }

  lemma CompleteParseIff(w: World, k: nat)
    requires ParseOwner(w, k)
    ensures w.issued[k].subject < |w.db.files| && w.issued[k].job < |w.db.jobs|
    ensures var w' := Apply(w, CompleteParse(k));
      && (LeaseTx(w, CompleteParse(k), w.issued[k]).reply == Yes <==> FileOf(w, k) == Parsing)
      && (if FileOf(w, k) == Parsing then ParseRows(w, w', k, Released(JobOf(w, k), Completed), Parsed) && SameRecords(w, w')
          else w' == w)
  {
    LiveSubject(w, k);
  }

  // ---------------------------------------------------------------- under a claimed build

  // Whoever claimed the build may move it on, write to its log and replace its packages; an
  // owner that did not is refused by an error, and nothing changes.
  lemma AdvanceIff(w: World, k: nat, status: TaskStatus)
    requires BuildOwner(w, k) && WorkingTask(status)
    ensures w.issued[k].subject < |w.db.tasks| && w.issued[k].job < |w.db.jobs|
    ensures var lease, w' := w.issued[k], Apply(w, Advance(k, status));
      && LeaseTx(w, Advance(k, status), lease).reply == (if lease.execution in w.claimed then Yes else Raised)
      && (if lease.execution in w.claimed then
            && BuildRows(w, w', k, JobOf(w, k).(expires := Some(w.now + w.leaseSeconds)), TaskOf(w, k).(status := status))
            && OneLine(w, w', k) && w'.db.artifacts == w.db.artifacts && w'.db.packages == w.db.packages
          else w' == w)
  {
    LiveSubject(w, k);
    MaxIsAbove(w.db.logs, w.issued[k].subject);
  }

  // One line more for the task, numbered above all its others.
  ghost predicate OneLine(w: World, w': World, k: nat)
    requires k < |w.issued|
  {
    && |w'.db.logs| == |w.db.logs| + 1 && w.db.logs <= w'.db.logs
    && var line := w'.db.logs[|w.db.logs|];
    && line.task == w.issued[k].subject
    && (forall l :: l in w.db.logs && l.task == line.task ==> l.sequence < line.sequence)
  }

  lemma {:induction false} MaxIsAbove(logs: seq<LogLine>, task: nat)
    ensures forall l :: l in logs && l.task == task ==> l.sequence <= MaxSequence(logs, task)
  {
    if |logs| > 0 {
      MaxIsAbove(logs[..|logs| - 1], task);
      assert logs == logs[..|logs| - 1] + [logs[|logs| - 1]];
    }
  }

  lemma LogIff(w: World, k: nat)
    requires BuildOwner(w, k)
    ensures w.issued[k].subject < |w.db.tasks|
    ensures var lease, w' := w.issued[k], Apply(w, Log(k));
      && LeaseTx(w, Log(k), lease).reply == (if lease.execution in w.claimed then Yes else Raised)
      && (if lease.execution in w.claimed then OneLine(w, w', k) && w' == w.(db := w.db.(logs := w'.db.logs)) else w' == w)
  {
    LiveSubject(w, k);
    MaxIsAbove(w.db.logs, w.issued[k].subject);
  }

  lemma PersistIff(w: World, k: nat, rows: seq<Id>)
    requires BuildOwner(w, k)
    ensures w.issued[k].subject < |w.db.tasks|
    ensures var lease, w' := w.issued[k], Apply(w, Persist(k, rows));
      && LeaseTx(w, Persist(k, rows), lease).reply == (if lease.execution in w.claimed then Yes else Raised)
      && (if lease.execution in w.claimed then
            && OneLine(w, w', k) && w'.db.packages == w.db.packages[lease.subject := rows]
            && w' == w.(db := w.db.(logs := w'.db.logs, packages := w'.db.packages))
          else w' == w)
  {
    LiveSubject(w, k);
    MaxIsAbove(w.db.logs, w.issued[k].subject);
  }

  // A build is cancelled by its owner exactly when that owner claimed it and was asked to stop;
  // otherwise every row stays.
  lemma CancelIff(w: World, k: nat)
    requires BuildOwner(w, k)
    ensures w.issued[k].subject < |w.db.tasks| && w.issued[k].job < |w.db.jobs|
    ensures var lease, w' := w.issued[k], Apply(w, Cancel(k));
      var stops := lease.execution in w.claimed && TaskOf(w, k).cancelRequested;
      && LeaseTx(w, Cancel(k), lease).reply == (if stops then Yes else No)
      && (if stops then
            BuildRows(w, w', k, Released(JobOf(w, k), Cancelled), TaskOf(w, k).(status := TaskCancelled)) && SameRecords(w, w')
          else w' == w)
  {
    LiveSubject(w, k);
  }

  // A publication that is turned away, because the build was not claimed by this lease, is to be
  // cancelled, or its artifact clashes, changes nothing; any other ends both rows.
  lemma PublishIff(w: World, k: nat, id: Id, status: TaskStatus)
    requires BuildOwner(w, k) && (status == Success || status == PartialSuccess)
    ensures w.issued[k].subject < |w.db.tasks| && w.issued[k].job < |w.db.jobs|
    ensures var lease, w' := w.issued[k], Apply(w, Publish(k, id, status));
      var stops := lease.execution !in w.claimed || TaskOf(w, k).cancelRequested;
      var clash := exists a :: a in w.db.artifacts && (a.id == id || a.key == KeyOf(lease, id));
      && LeaseTx(w, Publish(k, id, status), lease).reply == (if stops then No else if clash then Raised else Yes)
      && (if stops || clash then w' == w
          else
            && BuildRows(w, w', k, Released(JobOf(w, k), Completed), TaskOf(w, k).(status := status))
            && w'.db.logs == w.db.logs && w'.db.packages == w.db.packages
            && w'.db.artifacts == w.db.artifacts + [Artifact(id, lease.subject, KeyOf(lease, id), false)])
  {
    LiveSubject(w, k);
  }

  // The row is running for this worker and this execution, and its lease has not run out.
  predicate ShownAsOwner(w: World, lease: Lease) {
    && lease.job < |w.db.jobs| && w.db.jobs[lease.job].status == Running
    && w.db.jobs[lease.job].owner == Some(lease.worker) && w.db.jobs[lease.job].execution == Some(lease.execution)
    && match w.db.jobs[lease.job].expires case Some(end) => w.now < end case None => false
  }

  // In whatever state, nobody else changes anything.  Renewing, failing and retrying succeed
  // exactly for the owner; the steps of a build's log raise for anybody else, where the other
  // operations answer no.
  lemma RepliesTellTheOwner(w: World, a: Action)
    requires LeaseAction(a) && a.k < |w.issued|
    ensures var lease := w.issued[a.k];
      var reply := LeaseTx(w, a, lease).reply;
      && (!ShownAsOwner(w, lease) ==> Apply(w, a) == w)
      && (a.Heartbeat? || a.Fail? || a.Retry? ==> reply == if ShownAsOwner(w, lease) then Yes else No)
      && (!ShownAsOwner(w, lease) && lease.jobType.Build? && (a.Log? || a.Persist? || (a.Advance? && WorkingTask(a.status))) ==>
            reply == Raised)
      && (!ShownAsOwner(w, lease) && !a.Log? && !a.Persist? && !a.Advance? ==> reply == No)
  {
  }

  // A subject that has ended stays as it is when a job of it fails, in whatever state.
  lemma EndedSubjectsStay(db: Db, jobType: JobType, subject: nat)
    requires if jobType.Parse? then subject < |db.files| ==> db.files[subject] == Parsed || db.files[subject] == ParseFailed
             else subject < |db.tasks| ==> TerminalTask(db.tasks[subject].status)
    ensures TerminalizeSubject(db, jobType, subject) == db
  {
  }

  lemma EndedTasksAreNotMovedOn(db: Db, lease: Lease, now: nat, leaseSeconds: nat, status: TaskStatus)
    requires lease.subject < |db.tasks| && TerminalTask(db.tasks[lease.subject].status)
    ensures AdvanceTx(db, lease, now, leaseSeconds, status) == Tx(db, Raised)
  {
  }

  // Nor does a retry free a subject that its lease does not hold.
  lemma OthersSubjectsStay(db: Db, lease: Lease)
    requires if lease.jobType.Parse? then lease.subject < |db.files| ==> db.files[lease.subject] != Parsing
             else lease.subject < |db.tasks| ==> db.tasks[lease.subject].execution != Some(lease.execution)
    ensures ResetSubject(db, lease) == db
  {
  }

  // ---------------------------------------------------------------- being granted a job

  // The new lease carries the next attempt, is good for a whole period, and names the execution
  // it replaces exactly when it takes over from a lease that ran out.
  lemma GrantIs(w: World, worker: Id, execution: Id)
    requires Inv(w) && FreshExecution(w, execution) && Candidate(w.db.jobs, w.now).Some?
    requires var job := w.db.jobs[Candidate(w.db.jobs, w.now).value]; job.attempts < job.maxAttempts
    ensures var j, w' := Candidate(w.db.jobs, w.now).value, Apply(w, ClaimNext(worker, execution));
      var job := w.db.jobs[j];
      && |w'.issued| == |w.issued| + 1 && w.issued <= w'.issued
      && var lease := w'.issued[|w.issued|];
      && lease == Lease(j, job.jobType, job.subject, worker, execution, job.attempts + 1, job.maxAttempts,
                        lease.reclaimed, lease.previous)
      && (lease.reclaimed <==> job.status == Running) && (lease.reclaimed <==> lease.previous.Some?)
      && (lease.reclaimed ==> lease.previous == job.execution)
      && w'.db == w.db.(jobs := w'.db.jobs)
      && w'.db.jobs == w.db.jobs[j := job.(status := Running, attempts := lease.attempts, owner := Some(worker),
                                           execution := Some(execution), expires := Some(w.now + w.leaseSeconds))]
  {
    assert RowOk(w, Candidate(w.db.jobs, w.now).value);
  }

  // A claim that meets a row with no attempt left, which only an expired lease leaves behind,
  // hands out nothing and fails the row with its subject.
  lemma ExhaustionIs(w: World, worker: Id, execution: Id)
    requires Inv(w) && FreshExecution(w, execution) && Candidate(w.db.jobs, w.now).Some?
    requires var job := w.db.jobs[Candidate(w.db.jobs, w.now).value]; job.attempts >= job.maxAttempts
    ensures var j, w' := Candidate(w.db.jobs, w.now).value, Apply(w, ClaimNext(worker, execution));
      var job := w.db.jobs[j];
      && ClaimableExpired(job, w.now) && w'.issued == w.issued
      && w'.db.jobs == w.db.jobs[j := Released(job, Failed)]
      && (if job.jobType.Build? then
            && job.subject < |w.db.tasks| && w'.db.files == w.db.files
            && w'.db.tasks == w.db.tasks[job.subject := w.db.tasks[job.subject].(status := TaskFailed)]
          else
            && job.subject < |w.db.files| && w'.db.tasks == w.db.tasks
            && w'.db.files == w.db.files[job.subject := ParseFailed])
  {
    var j := Candidate(w.db.jobs, w.now).value;
    assert RowOk(w, j) && SubjectOk(w, j);
  }

  // ---------------------------------------------------------------- asking a build to stop

  // A request to stop a build that has not begun ends job and task at once; of one under way it
  // leaves a mark for the worker; of one that has ended it leaves nothing.
  lemma RequestCancelIs(w: World, j: nat)
    requires Inv(w) && j < |w.db.jobs| && w.db.jobs[j].jobType.Build?
    ensures w.db.jobs[j].subject < |w.db.tasks|
    ensures var t, w' := w.db.jobs[j].subject, Apply(w, RequestCancel(j));
      var job, task := w.db.jobs[j], w.db.tasks[t];
      if TerminalJob(job.status) then w' == w
      else
        var queued := job.status == Ready && task.status == Queued;
        && w' == w.(db := w.db.(jobs := w'.db.jobs, tasks := w'.db.tasks))
        && w'.db.jobs == w.db.jobs[j := if queued then job.(status := Cancelled) else job]
        && w'.db.tasks == w.db.tasks[t := task.(cancelRequested := true, status := if queued then TaskCancelled else task.status)]
  {
    assert SubjectOk(w, j);
  }

  // The mark is there, and the build has not completed.
  ghost predicate AskedToStop(w: World, j: nat) {
    && j < |w.db.jobs| && w.db.jobs[j].jobType.Build? && w.db.jobs[j].subject < |w.db.tasks|
    && w.db.tasks[w.db.jobs[j].subject].cancelRequested && w.db.jobs[j].status != Completed
  }

  lemma HolderLeavesAsked(w: World, a: Action)
    requires LeaseAction(a) && a.k < |w.issued| && Owner(w, a.k) && AskedToStop(w, w.issued[a.k].job)
    ensures AskedToStop(Apply(w, a), w.issued[a.k].job)
  {
    OwnedJob(w, a.k);
    if a.Publish? {
      assert Apply(w, a) == w;
    } else {
      OnlyPublicationsComplete(w, a);
      LeaseActionKeeps(w, a);
      NoMarkIsErased(w, a);
    }
  }

  lemma OnlyPublicationsComplete(w: World, a: Action)
    requires LeaseAction(a) && a.k < |w.issued| && BuildOwner(w, a.k) && !a.Publish?
    ensures Apply(w, a).db.jobs[w.issued[a.k].job].status != Completed
  {
    OwnedJob(w, a.k);
  }

  lemma NoMarkIsErased(w: World, a: Action)
    requires LeaseAction(a) && a.k < |w.issued| && BuildOwner(w, a.k)
    ensures var t := w.issued[a.k].subject;
      && t < |w.db.tasks| == |Apply(w, a).db.tasks|
      && Apply(w, a).db.tasks[t].cancelRequested == w.db.tasks[t].cancelRequested
  {
    OwnedJob(w, a.k);
  }

  lemma OthersLeaveAsked(w: World, a: Action, j: nat)
    requires LeaseAction(a) && a.k < |w.issued| && Owner(w, a.k) && AskedToStop(w, j) && w.issued[a.k].job != j
    ensures AskedToStop(Apply(w, a), j)
  {
    OwnedJob(w, a.k);
    LeaseActionKeeps(w, a);
    OthersKeepTheirSubjects(w, Apply(w, a), w.issued[a.k].job, j);
  }

  lemma StepLeavesAsked(w: World, a: Action, j: nat)
    requires Inv(w) && AskedToStop(w, j)
    ensures AskedToStop(Apply(w, a), j)
  {
    if LeaseAction(a) {
      if a.k < |w.issued| {
        if !Owns(w.db, w.issued[a.k], w.now) {
          NonOwnerChangesNothing(w, a);
        } else if w.issued[a.k].job == j {
          HolderLeavesAsked(w, a);
        } else {
          OthersLeaveAsked(w, a, j);
        }
      }
    } else {
      EnvironmentLeavesAsked(w, a, j);
    }
  }

  lemma EnvironmentLeavesAsked(w: World, a: Action, j: nat)
    requires Inv(w) && AskedToStop(w, j) && !LeaseAction(a)
    ensures AskedToStop(Apply(w, a), j)
  {
  }

  // Whatever happens afterwards, a build that was asked to stop before it completed never does.
  lemma {:induction false} AskedNeverCompletes(w: World, actions: seq<Action>, j: nat)
    requires Inv(w) && AskedToStop(w, j)
    ensures AskedToStop(Run(w, actions), j)
    decreases |actions|
  {
    if |actions| > 0 {
      StepLeavesAsked(w, actions[0], j);
      ApplyKeeps(w, actions[0]);
      AskedNeverCompletes(Apply(w, actions[0]), actions[1..], j);
    }
  }

  lemma RequestedNeverCompletes(w: World, j: nat, actions: seq<Action>)
    requires Inv(w) && j < |w.db.jobs| && w.db.jobs[j].jobType.Build? && !TerminalJob(w.db.jobs[j].status)
    ensures var end := Run(Apply(w, RequestCancel(j)), actions); j < |end.db.jobs| && end.db.jobs[j].status != Completed
  {
    RequestCancelIs(w, j);
    ApplyKeeps(w, RequestCancel(j));
    AskedNeverCompletes(Apply(w, RequestCancel(j)), actions, j);
  }
}
