/**
  What every run of the lease protocol keeps: attempts count leases, at most one issued lease
  owns a job, a lease once lost is lost for ever, jobs and their subjects agree, and terminal
  states are never left.
 */
module LeaseInvariants {
  import opened Options
  import opened Leases

  // ---------------------------------------------------------------- counting

  function LeaseCount(issued: seq<Lease>, j: nat): nat {
    if |issued| == 0 then 0
    else LeaseCount(issued[..|issued| - 1], j) + (if issued[|issued| - 1].job == j then 1 else 0)
  }

  // The position of the most recent lease of a job.
  function Latest(issued: seq<Lease>, j: nat): (r: Option<nat>)
    ensures r.Some? ==> r.value < |issued| && issued[r.value].job == j
  {
    if |issued| == 0 then None
    else if issued[|issued| - 1].job == j then Some(|issued| - 1)
    else Latest(issued[..|issued| - 1], j)
  }

  function ArtifactCount(artifacts: seq<Artifact>, t: nat): nat {
    if |artifacts| == 0 then 0
    else ArtifactCount(artifacts[..|artifacts| - 1], t) + (if artifacts[|artifacts| - 1].task == t then 1 else 0)
  }

  lemma CountAfterIssue(issued: seq<Lease>, lease: Lease, j: nat)
    ensures LeaseCount(issued + [lease], j) == LeaseCount(issued, j) + (if lease.job == j then 1 else 0)
    ensures Latest(issued + [lease], j) == if lease.job == j then Some(|issued|) else Latest(issued, j)
  {
    assert (issued + [lease])[..|issued|] == issued;
  }

  lemma CountAfterStore(artifacts: seq<Artifact>, artifact: Artifact, t: nat)
    ensures ArtifactCount(artifacts + [artifact], t)
         == ArtifactCount(artifacts, t) + (if artifact.task == t then 1 else 0)
  {
    assert (artifacts + [artifact])[..|artifacts|] == artifacts;
  }

  lemma {:induction false} CountAfterClean(artifacts: seq<Artifact>, i: nat, t: nat)
    requires i < |artifacts|
    ensures ArtifactCount(artifacts[i := artifacts[i].(cleaned := true)], t) == ArtifactCount(artifacts, t)
  {
    var n := |artifacts| - 1;
    var cleaned := artifacts[i := artifacts[i].(cleaned := true)];
    if i < n {
      CountAfterClean(artifacts[..n], i, t);
      assert cleaned[..n] == artifacts[..n][i := artifacts[..n][i].(cleaned := true)];
    } else {
      assert cleaned[..n] == artifacts[..n];
    }
  }

  lemma {:induction false} NoArtifacts(artifacts: seq<Artifact>, t: nat)
    requires forall a :: a in artifacts ==> a.task != t
    ensures ArtifactCount(artifacts, t) == 0
  {
    if |artifacts| > 0 {
      NoArtifacts(artifacts[..|artifacts| - 1], t);
    }
  }

  lemma {:induction false} NoLeases(issued: seq<Lease>, j: nat)
    requires forall k :: 0 <= k < |issued| ==> issued[k].job != j
    ensures LeaseCount(issued, j) == 0 && Latest(issued, j).None?
  {
    if |issued| > 0 {
      NoLeases(issued[..|issued| - 1], j);
    }
  }

  // ---------------------------------------------------------------- the invariant

  // Every issued lease describes its job, and no two share an execution.
  ghost predicate LeasesLinked(w: World) {
    && (forall k :: 0 <= k < |w.issued| ==>
          && w.issued[k].job < |w.db.jobs|
          && var job := w.db.jobs[w.issued[k].job];
          && w.issued[k].jobType == job.jobType
          && w.issued[k].subject == job.subject
          && w.issued[k].maxAttempts == job.maxAttempts)
    && (forall k, l :: 0 <= k < l < |w.issued| ==> w.issued[k].execution != w.issued[l].execution)
    && (forall k :: 0 <= k < |w.issued| && w.issued[k].previous.Some? ==>
          RunsUnder(w.issued, w.issued[k].previous.value, w.issued[k].job))
  }

  // Some lease of job j was issued with this execution.
  ghost predicate RunsUnder(issued: seq<Lease>, execution: Id, j: nat) {
    exists k :: 0 <= k < |issued| && issued[k].execution == execution && issued[k].job == j
  }

  ghost predicate SubjectsDistinct(db: Db) {
    forall i, j :: 0 <= i < j < |db.jobs| && db.jobs[i].jobType == db.jobs[j].jobType
      ==> db.jobs[i].subject != db.jobs[j].subject
  }

  ghost predicate SubjectsExist(db: Db) {
    && (forall j :: 0 <= j < |db.jobs| ==>
          if db.jobs[j].jobType.Build? then db.jobs[j].subject < |db.tasks| else db.jobs[j].subject < |db.files|)
    && (forall a :: a in db.artifacts ==> a.task < |db.tasks|)
  }

  // The columns a status implies, and the lease a running row was handed out under.
  ghost predicate RowOk(w: World, j: nat)
    requires j < |w.db.jobs|
  {
    var job := w.db.jobs[j];
    && job.attempts == LeaseCount(w.issued, j) <= job.maxAttempts
    && (job.status == Running ==>
          && job.owner.Some? && job.execution.Some? && job.expires.Some?
          && Latest(w.issued, j).Some?
          && var lease := w.issued[Latest(w.issued, j).value];
          && lease.execution == job.execution.value
          && lease.worker == job.owner.value
          && lease.attempts == job.attempts)
    && (job.status != Running ==> job.owner.None? && job.execution.None? && job.expires.None?)
    && (job.status == Ready ==> job.attempts < job.maxAttempts)
  }

  predicate BuildAgrees(status: JobStatus, task: Task, rows: nat) {
    match status
    case Ready => !TerminalTask(task.status) && rows == 0
    case Running => !TerminalTask(task.status) && rows == 0
    case Completed => (task.status == Success || task.status == PartialSuccess) && rows == 1
    case Failed => task.status == TaskFailed && rows == 0
    case Cancelled => task.status == TaskCancelled && rows == 0
  }

  predicate ParseAgrees(status: JobStatus, file: ParseStatus) {
    match status
    case Ready => file == Pending
    case Running => file == Pending || file == Parsing
    case Completed => file == Parsed
    case Failed => file == ParseFailed
    case Cancelled => false
  }

  // Who holds a live task: nobody while it is queued, otherwise an execution that claimed it.
  ghost predicate HolderOk(w: World, j: nat)
    requires j < |w.db.jobs| && w.db.jobs[j].jobType.Build? && w.db.jobs[j].subject < |w.db.tasks|
  {
    var job := w.db.jobs[j];
    var task := w.db.tasks[job.subject];
    && (!TerminalTask(task.status) ==> (task.status == Queued <==> task.execution.None?))
    && (!TerminalTask(task.status) && task.execution.Some? ==> task.execution.value in w.claimed)
    && (job.status == Running && Latest(w.issued, j).Some? ==>
          var lease := w.issued[Latest(w.issued, j).value];
          && (lease.execution in w.claimed <==> task.execution == Some(lease.execution))
          && (lease.reclaimed ==> lease.previous.Some?)
          && (lease.execution !in w.claimed && lease.reclaimed ==>
                (lease.previous.value in w.claimed <==> task.execution == lease.previous)))
  }

  ghost predicate SubjectOk(w: World, j: nat)
    requires j < |w.db.jobs|
  {
    var job := w.db.jobs[j];
    if job.jobType.Build? then
      && job.subject < |w.db.tasks|
      && BuildAgrees(job.status, w.db.tasks[job.subject], ArtifactCount(w.db.artifacts, job.subject))
      && HolderOk(w, j)
    else
      job.subject < |w.db.files| && ParseAgrees(job.status, w.db.files[job.subject])
  }

  ghost predicate ClaimedWereIssued(w: World) {
    forall e :: e in w.claimed ==> exists k :: 0 <= k < |w.issued| && w.issued[k].execution == e
  }

  ghost predicate Inv(w: World) {
    && LeasesLinked(w) && SubjectsDistinct(w.db) && SubjectsExist(w.db) && ClaimedWereIssued(w)
    && w.leaseSeconds > 0
    && (forall j :: 0 <= j < |w.db.jobs| ==> RowOk(w, j) && SubjectOk(w, j))
  }

  // ---------------------------------------------------------------- one row at a time

  // Only row j, its subject and the artifacts of its subject may differ; nothing is issued.
  ghost predicate OnlyJob(w: World, w': World, j: nat)
    requires j < |w.db.jobs|
  {
    var job := w.db.jobs[j];
    && |w'.db.jobs| == |w.db.jobs| && |w'.db.tasks| == |w.db.tasks| && |w'.db.files| == |w.db.files|
    && (forall i :: 0 <= i < |w.db.jobs| && i != j ==> w'.db.jobs[i] == w.db.jobs[i])
    && w'.db.jobs[j].jobType == job.jobType
    && w'.db.jobs[j].subject == job.subject
    && w'.db.jobs[j].maxAttempts == job.maxAttempts
    && (forall t :: 0 <= t < |w.db.tasks| && !(job.jobType.Build? && t == job.subject)
          ==> w'.db.tasks[t] == w.db.tasks[t]
              && ArtifactCount(w'.db.artifacts, t) == ArtifactCount(w.db.artifacts, t))
    && (forall f :: 0 <= f < |w.db.files| && !(job.jobType.Parse? && f == job.subject)
          ==> w'.db.files[f] == w.db.files[f])
    && (forall a :: a in w'.db.artifacts ==> a.task < |w'.db.tasks|)
    && w'.issued == w.issued && w'.leaseSeconds == w.leaseSeconds
    && w.claimed <= w'.claimed
    && (forall e :: e in w'.claimed && e !in w.claimed ==> w.db.jobs[j].execution == Some(e))
  }

  // An execution belongs to one job.
  lemma OneJobPerExecution(w: World, execution: Id, i: nat, j: nat)
    requires LeasesLinked(w) && RunsUnder(w.issued, execution, i) && RunsUnder(w.issued, execution, j)
    ensures i == j
  {
    var k :| 0 <= k < |w.issued| && w.issued[k].execution == execution && w.issued[k].job == i;
    var l :| 0 <= l < |w.issued| && w.issued[l].execution == execution && w.issued[l].job == j;
    if k < l {
    } else if l < k {
    }
  }

  lemma ShownExecution(w: World, j: nat)
    requires Inv(w) && j < |w.db.jobs| && w.db.jobs[j].execution.Some?
    ensures RunsUnder(w.issued, w.db.jobs[j].execution.value, j)
  {
    assert RowOk(w, j);
    var k := Latest(w.issued, j).value;
    assert w.issued[k].job == j;
  }

  lemma OtherHolders(w: World, w': World, j: nat, i: nat)
    requires Inv(w) && j < |w.db.jobs| && OnlyJob(w, w', j) && i < |w.db.jobs| && i != j
    requires w.db.jobs[i].jobType.Build?
    requires w'.db.tasks[w.db.jobs[i].subject] == w.db.tasks[w.db.jobs[i].subject]
    ensures HolderOk(w', i)
  {
    assert SubjectOk(w, i) && HolderOk(w, i);
    var latest := Latest(w.issued, i);
    if w.db.jobs[i].status == Running && latest.Some? && w.db.jobs[j].execution.Some? {
      ShownExecution(w, j);
      var e := w.db.jobs[j].execution.value;
      var lease := w.issued[latest.value];
      assert RunsUnder(w.issued, lease.execution, i);
      if lease.execution == e {
        OneJobPerExecution(w, e, i, j);
      }
      if lease.previous == Some(e) {
        OneJobPerExecution(w, e, i, j);
      }
    }
  }

  lemma OtherJobs(w: World, w': World, j: nat, i: nat)
    requires Inv(w) && j < |w.db.jobs| && OnlyJob(w, w', j) && i < |w.db.jobs| && i != j
    ensures RowOk(w', i) && SubjectOk(w', i)
  {
    assert RowOk(w, i) && SubjectOk(w, i);
    if w.db.jobs[i].jobType == w.db.jobs[j].jobType {
      assert w.db.jobs[i].subject != w.db.jobs[j].subject;
    }
    if w.db.jobs[i].jobType.Build? {
      OtherHolders(w, w', j, i);
    }
  }

  // Re-establishing the invariant takes a look at row j alone.
  lemma Reestablish(w: World, w': World, j: nat)
    requires Inv(w) && j < |w.db.jobs| && OnlyJob(w, w', j)
    requires RowOk(w', j) && SubjectOk(w', j)
    ensures Inv(w')
  {
    forall i | 0 <= i < |w'.db.jobs| && i != j
      ensures RowOk(w', i) && SubjectOk(w', i)
    {
      OtherJobs(w, w', j, i);
    }
    forall e | e in w'.claimed
      ensures exists k :: 0 <= k < |w'.issued| && w'.issued[k].execution == e
    {
      if e !in w.claimed {
        ShownExecution(w, j);
      }
    }
  }
}
