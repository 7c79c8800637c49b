/**
  The job lease protocol: rows of the job, task, requirement-file, artifact, log and
  package tables, and every repository operation as one serial transaction over them.

  Rows live in sequences and a row's identifier is its position.  A transaction that raises
  leaves the database as it was.  Execution identifiers stand for fresh UUIDs.
 */
module Leases {
  import opened Options

  type Id = nat

  datatype JobType = Parse | Build

  datatype JobStatus = Ready | Running | Completed | Failed | Cancelled

  datatype TaskStatus =
    | Queued | Resolving | Downloading | Validating | Packaging
    | Success | PartialSuccess | TaskFailed | TaskCancelled

  datatype ParseStatus = Pending | Parsing | Parsed | ParseFailed

  datatype Job = Job(
    jobType: JobType, subject: nat, status: JobStatus,
    priority: int, createdAt: nat, availableAt: nat,
    attempts: nat, maxAttempts: nat,
    owner: Option<Id>, execution: Option<Id>, expires: Option<nat>)

  datatype Task = Task(
    status: TaskStatus, execution: Option<Id>, cancelRequested: bool,
    file: nat, wellBound: bool, snapshotOk: bool)

  // The object key artifacts/<task>/[<owner execution>/]<id>.zip.
  datatype ArtifactKey = ArtifactKey(task: nat, owner: Option<Id>, id: Id)

  datatype Artifact = Artifact(id: Id, task: nat, key: ArtifactKey, cleaned: bool)

  datatype LogLine = LogLine(task: nat, sequence: nat)

  datatype Db = Db(
    jobs: seq<Job>, tasks: seq<Task>, files: seq<ParseStatus>,
    artifacts: seq<Artifact>, logs: seq<LogLine>, packages: map<nat, seq<Id>>)

  datatype Lease = Lease(
    job: nat, jobType: JobType, subject: nat, worker: Id, execution: Id,
    attempts: nat, maxAttempts: nat, reclaimed: bool, previous: Option<Id>)

  datatype Reply = Yes | No | Raised

  // What a transaction left behind, and what its caller saw.
  datatype Tx = Tx(db: Db, reply: Reply)

  predicate TerminalJob(s: JobStatus) { s != Ready && s != Running }

  predicate TerminalTask(s: TaskStatus) {
    s == Success || s == PartialSuccess || s == TaskFailed || s == TaskCancelled
  }

  predicate WorkingTask(s: TaskStatus) { !TerminalTask(s) && s != Queued }

  // ---------------------------------------------------------------- ownership and row updates

  predicate Owns(db: Db, lease: Lease, now: nat) {
    && lease.job < |db.jobs|
    && var job := db.jobs[lease.job];
    && job.status == Running
    && job.owner == Some(lease.worker)
    && job.execution == Some(lease.execution)
    && job.expires.Some?
    && now < job.expires.value
  }

  function SetJob(db: Db, j: nat, job: Job): Db
    requires j < |db.jobs|
  {
    db.(jobs := db.jobs[j := job])
  }

  function SetTask(db: Db, t: nat, task: Task): Db
    requires t < |db.tasks|
  {
    db.(tasks := db.tasks[t := task])
  }

  function EndJob(db: Db, j: nat, status: JobStatus): Db
    requires j < |db.jobs|
  {
    SetJob(db, j, db.jobs[j].(status := status, owner := None, execution := None, expires := None))
  }

  function TerminalizeSubject(db: Db, jobType: JobType, subject: nat): Db {
    if jobType.Parse? then
      if subject < |db.files| && db.files[subject] != Parsed && db.files[subject] != ParseFailed then
        db.(files := db.files[subject := ParseFailed])
      else db
    else
      if subject < |db.tasks| && !TerminalTask(db.tasks[subject].status) then
        SetTask(db, subject, db.tasks[subject].(status := TaskFailed))
      else db
  }

  function FailJob(db: Db, j: nat): Db
    requires j < |db.jobs|
  {
    TerminalizeSubject(EndJob(db, j, Failed), db.jobs[j].jobType, db.jobs[j].subject)
  }

  function ResetSubject(db: Db, lease: Lease): Db {
    if lease.jobType.Build? then
      if lease.subject < |db.tasks| && db.tasks[lease.subject].execution == Some(lease.execution) then
        SetTask(db, lease.subject, db.tasks[lease.subject].(execution := None, status := Queued))
      else db
    else
      if lease.subject < |db.files| && db.files[lease.subject] == Parsing then
        db.(files := db.files[lease.subject := Pending])
      else db
  }

  // ---------------------------------------------------------------- choosing a row to claim

  predicate ClaimableReady(job: Job, now: nat) { job.status == Ready && job.availableAt <= now }

  predicate ClaimableExpired(job: Job, now: nat) {
    job.status == Running && job.expires.Some? && job.expires.value <= now
  }

  predicate ReadyBefore(a: Job, b: Job) {
    a.priority < b.priority || (a.priority == b.priority && a.createdAt < b.createdAt)
  }

  predicate ExpiredBefore(a: Job, b: Job) {
    a.expires.Some? && b.expires.Some? && a.expires.value < b.expires.value
  }

  // The first claimable READY row by priority, then creation, then identifier.
  function BestReady(jobs: seq<Job>, now: nat, n: nat): (r: Option<nat>)
    requires n <= |jobs|
    ensures r.Some? ==> r.value < n && ClaimableReady(jobs[r.value], now)
  {
    if n == 0 then None
    else
      var best := BestReady(jobs, now, n - 1);
      if !ClaimableReady(jobs[n - 1], now) then best
      else if best.None? || ReadyBefore(jobs[n - 1], jobs[best.value]) then Some(n - 1)
      else best
  }

  // The RUNNING row whose lease ran out first.
  function BestExpired(jobs: seq<Job>, now: nat, n: nat): (r: Option<nat>)
    requires n <= |jobs|
    ensures r.Some? ==> r.value < n && ClaimableExpired(jobs[r.value], now)
  {
    if n == 0 then None
    else
      var best := BestExpired(jobs, now, n - 1);
      if !ClaimableExpired(jobs[n - 1], now) then best
      else if best.None? || ExpiredBefore(jobs[n - 1], jobs[best.value]) then Some(n - 1)
      else best
  }

  function Candidate(jobs: seq<Job>, now: nat): (r: Option<nat>)
    ensures r.Some? ==> r.value < |jobs|
    ensures r.Some? ==> ClaimableReady(jobs[r.value], now) || ClaimableExpired(jobs[r.value], now)
  {
    var ready := BestReady(jobs, now, |jobs|);
    if ready.Some? then ready else BestExpired(jobs, now, |jobs|)
  }

  function LeaseFor(db: Db, j: nat, worker: Id, execution: Id): Lease
    requires j < |db.jobs|
  {
    var job := db.jobs[j];
    Lease(j, job.jobType, job.subject, worker, execution, job.attempts + 1, job.maxAttempts,
          job.status == Running, if job.status == Running then job.execution else None)
  }

  function Grant(db: Db, j: nat, worker: Id, execution: Id, expires: nat): Db
    requires j < |db.jobs|
  {
    SetJob(db, j, db.jobs[j].(status := Running, attempts := db.jobs[j].attempts + 1,
                              owner := Some(worker), execution := Some(execution), expires := Some(expires)))
  }

  datatype ClaimResult = Nothing | Exhausted(db: Db) | Claimed(db: Db, lease: Lease)

  // One pass of claim_next.
  function ClaimOnce(db: Db, now: nat, worker: Id, execution: Id, leaseSeconds: nat): ClaimResult {
    var row := Candidate(db.jobs, now);
    if row.None? then Nothing
    else if db.jobs[row.value].attempts >= db.jobs[row.value].maxAttempts then
      Exhausted(FailJob(db, row.value))
    else
      Claimed(Grant(db, row.value, worker, execution, now + leaseSeconds),
              LeaseFor(db, row.value, worker, execution))
  }

  // ---------------------------------------------------------------- operations under a lease

  function HeartbeatTx(db: Db, lease: Lease, now: nat, leaseSeconds: nat): Tx {
    if Owns(db, lease, now) then
      Tx(SetJob(db, lease.job, db.jobs[lease.job].(expires := Some(now + leaseSeconds))), Yes)
    else Tx(db, No)
  }

  function FailTx(db: Db, lease: Lease, now: nat): Tx {
    if Owns(db, lease, now) then
      Tx(TerminalizeSubject(EndJob(db, lease.job, Failed), lease.jobType, lease.subject), Yes)
    else Tx(db, No)
  }

  function RetryTx(db: Db, lease: Lease, now: nat, retryable: bool, delay: nat): Tx {
    if retryable && lease.attempts < lease.maxAttempts then
      if Owns(db, lease, now) then
        var ended := EndJob(db, lease.job, Ready);
        var ready := SetJob(ended, lease.job, ended.jobs[lease.job].(availableAt := now + delay));
        Tx(ResetSubject(ready, lease), Yes)
      else Tx(db, No)
    else FailTx(db, lease, now)
  }

  function ClaimParseTx(db: Db, lease: Lease, now: nat): Tx {
    if !Owns(db, lease, now) then Tx(db, No)
    else if || lease.subject >= |db.files|
            || db.files[lease.subject] != (if lease.reclaimed then Parsing else Pending)
            || (lease.reclaimed && lease.previous.None?) then
      Tx(FailTx(db, lease, now).db, No)
    else Tx(db.(files := db.files[lease.subject := Parsing]), Yes)
  }

  function CompleteParseTx(db: Db, lease: Lease, now: nat): Tx {
    if !Owns(db, lease, now) || lease.subject >= |db.files| || db.files[lease.subject] != Parsing then Tx(db, No)
    else Tx(EndJob(db.(files := db.files[lease.subject := Parsed]), lease.job, Completed), Yes)
  }

  predicate ValidBinding(db: Db, task: Task) {
    task.wellBound && task.file < |db.files| && db.files[task.file] == Parsed
  }

  predicate StartsFresh(lease: Lease, task: Task) {
    !lease.reclaimed && task.status == Queued && task.execution.None?
  }

  predicate TakesOver(lease: Lease, task: Task) {
    lease.reclaimed && lease.previous.Some? && !TerminalTask(task.status) && task.execution == lease.previous
  }

  function ClaimBuildTx(db: Db, lease: Lease, now: nat): Tx {
    if !Owns(db, lease, now) then Tx(db, No)
    else if lease.subject >= |db.tasks| then Tx(FailTx(db, lease, now).db, No)
    else
      var task := db.tasks[lease.subject];
      if !ValidBinding(db, task) || !(StartsFresh(lease, task) || TakesOver(lease, task)) then
        Tx(FailTx(db, lease, now).db, No)
      else
        var bound := SetTask(db, lease.subject, task.(execution := Some(lease.execution), status := Resolving));
        if !task.snapshotOk then Tx(FailTx(bound, lease, now).db, No) else Tx(bound, Yes)
  }

  predicate HoldsTask(db: Db, lease: Lease) {
    lease.subject < |db.tasks| && db.tasks[lease.subject].execution == Some(lease.execution)
  }

  function CancelTx(db: Db, lease: Lease, now: nat): Tx {
    if !Owns(db, lease, now) || !HoldsTask(db, lease) || !db.tasks[lease.subject].cancelRequested then Tx(db, No)
    else
      var task := db.tasks[lease.subject];
      Tx(EndJob(SetTask(db, lease.subject, task.(status := TaskCancelled)), lease.job, Cancelled), Yes)
  }

  function MaxSequence(logs: seq<LogLine>, task: nat): nat {
    if |logs| == 0 then 0
    else
      var last := logs[|logs| - 1];
      var rest := MaxSequence(logs[..|logs| - 1], task);
      if last.task == task && last.sequence > rest then last.sequence else rest
  }

  // The body of the logging helper; it raises when the task is not held by this execution.
  function AppendLogTx(db: Db, lease: Lease): Tx {
    if !HoldsTask(db, lease) then Tx(db, Raised)
    else Tx(db.(logs := db.logs + [LogLine(lease.subject, MaxSequence(db.logs, lease.subject) + 1)]), Yes)
  }

  function LogTx(db: Db, lease: Lease, now: nat): Tx {
    if !Owns(db, lease, now) then Tx(db, Raised) else AppendLogTx(db, lease)
  }

  // Renews the lease, moves the task on and logs, all or nothing.
  function AdvanceTx(db: Db, lease: Lease, now: nat, leaseSeconds: nat, status: TaskStatus): Tx {
    if !Owns(db, lease, now) then Tx(db, Raised)
    else if !HoldsTask(db, lease) || TerminalTask(db.tasks[lease.subject].status) then Tx(db, Raised)
    else
      var renewed := HeartbeatTx(db, lease, now, leaseSeconds).db;
      var moved := SetTask(renewed, lease.subject, renewed.tasks[lease.subject].(status := status));
      AppendLogTx(moved, lease)
  }

  function PersistTx(db: Db, lease: Lease, now: nat, rows: seq<Id>): Tx {
    if !Owns(db, lease, now) || !HoldsTask(db, lease) then Tx(db, Raised)
    else AppendLogTx(db.(packages := db.packages[lease.subject := rows]), lease)
  }

  function PublishTx(db: Db, lease: Lease, now: nat, id: Id, key: ArtifactKey, status: TaskStatus): Tx {
    if !Owns(db, lease, now) || !HoldsTask(db, lease) || db.tasks[lease.subject].cancelRequested then Tx(db, No)
    else if exists a :: a in db.artifacts && (a.id == id || a.key == key) then Tx(db, Raised)
    else
      var stored := db.(artifacts := db.artifacts + [Artifact(id, lease.subject, key, false)]);
      var done := SetTask(stored, lease.subject, stored.tasks[lease.subject].(status := status));
      Tx(EndJob(done, lease.job, Completed), Yes)
  }

  // ---------------------------------------------------------------- runs

  // Issued leases are kept for ever, so that a stale holder may still act on one; "claimed"
  // remembers the executions whose claim of their build task succeeded.
  datatype World = World(db: Db, now: nat, leaseSeconds: nat, issued: seq<Lease>, claimed: set<Id>)

  datatype Action =
    | Tick(delta: nat)
    | ClaimNext(worker: Id, execution: Id)
    | Heartbeat(k: nat)
    | Retry(k: nat, retryable: bool, delay: nat)
    | Fail(k: nat)
    | ClaimParse(k: nat)
    | CompleteParse(k: nat)
    | ClaimBuild(k: nat)
    | Cancel(k: nat)
    | Advance(k: nat, status: TaskStatus)
    | Log(k: nat)
    | Persist(k: nat, rows: seq<Id>)
    | Publish(k: nat, id: Id, status: TaskStatus)
    | SubmitParse(priority: int, maxAttempts: nat)
    | SubmitBuild(file: nat, wellBound: bool, snapshotOk: bool, priority: int, maxAttempts: nat)
    | RequestCancel(job: nat)
    | Unbind(task: nat)
    | MarkCleaned(artifact: nat)

  predicate FreshExecution(w: World, execution: Id) {
    forall k :: 0 <= k < |w.issued| ==> w.issued[k].execution != execution
  }

  function KeyOf(lease: Lease, id: Id): ArtifactKey {
    ArtifactKey(lease.subject, Some(lease.execution), id)
  }

  // The transaction a lease action runs; the pipeline dispatches on the job type.
  function LeaseTx(w: World, a: Action, lease: Lease): Tx {
    match a
    case Heartbeat(_) => HeartbeatTx(w.db, lease, w.now, w.leaseSeconds)
    case Retry(_, retryable, delay) => RetryTx(w.db, lease, w.now, retryable, delay)
    case Fail(_) => FailTx(w.db, lease, w.now)
    case ClaimParse(_) => if lease.jobType.Parse? then ClaimParseTx(w.db, lease, w.now) else Tx(w.db, No)
    case CompleteParse(_) => if lease.jobType.Parse? then CompleteParseTx(w.db, lease, w.now) else Tx(w.db, No)
    case ClaimBuild(_) => if lease.jobType.Build? then ClaimBuildTx(w.db, lease, w.now) else Tx(w.db, No)
    case Cancel(_) => if lease.jobType.Build? then CancelTx(w.db, lease, w.now) else Tx(w.db, No)
    case Advance(_, status) =>
      if lease.jobType.Build? && WorkingTask(status) then AdvanceTx(w.db, lease, w.now, w.leaseSeconds, status)
      else Tx(w.db, No)
    case Log(_) => if lease.jobType.Build? then LogTx(w.db, lease, w.now) else Tx(w.db, No)
    case Persist(_, rows) => if lease.jobType.Build? then PersistTx(w.db, lease, w.now, rows) else Tx(w.db, No)
    case Publish(_, id, status) =>
      if lease.jobType.Build? && (status == Success || status == PartialSuccess) then
        PublishTx(w.db, lease, w.now, id, KeyOf(lease, id), status)
      else Tx(w.db, No)
    case _ => Tx(w.db, No)
  }

  predicate LeaseAction(a: Action) {
    || a.Heartbeat? || a.Retry? || a.Fail? || a.ClaimParse? || a.CompleteParse? || a.ClaimBuild?
    || a.Cancel? || a.Advance? || a.Log? || a.Persist? || a.Publish?
  }

  function ClaimAction(w: World, worker: Id, execution: Id): World {
    if !FreshExecution(w, execution) then w
    else
      match ClaimOnce(w.db, w.now, worker, execution, w.leaseSeconds)
      case Nothing => w
      case Exhausted(db) => w.(db := db)
      case Claimed(db, lease) => w.(db := db, issued := w.issued + [lease])
  }

  function NewJob(w: World, jobType: JobType, subject: nat, priority: int, maxAttempts: nat): Job {
    Job(jobType, subject, Ready, priority, w.now, w.now, 0, maxAttempts, None, None, None)
  }

  // The API cancels a queued build outright, and otherwise only asks its worker to stop.
  function RequestCancelOf(db: Db, j: nat): Db {
    if j < |db.jobs| && db.jobs[j].jobType.Build? && db.jobs[j].subject < |db.tasks| then
      var job := db.jobs[j];
      var task := db.tasks[job.subject];
      if TerminalTask(task.status) then db
      else if job.status == Ready && task.status == Queued then
        SetJob(SetTask(db, job.subject, task.(status := TaskCancelled, cancelRequested := true)),
               j, job.(status := Cancelled))
      else SetTask(db, job.subject, task.(cancelRequested := true))
    else db
  }

  function Apply(w: World, a: Action): World {
    match a
    case Tick(delta) => w.(now := w.now + delta)
    case ClaimNext(worker, execution) => ClaimAction(w, worker, execution)
    case SubmitParse(priority, maxAttempts) =>
      if maxAttempts == 0 then w
      else w.(db := w.db.(files := w.db.files + [Pending],
                          jobs := w.db.jobs + [NewJob(w, Parse, |w.db.files|, priority, maxAttempts)]))
    case SubmitBuild(file, wellBound, snapshotOk, priority, maxAttempts) =>
      if maxAttempts == 0 then w
      else w.(db := w.db.(tasks := w.db.tasks + [Task(Queued, None, false, file, wellBound, snapshotOk)],
                          jobs := w.db.jobs + [NewJob(w, Build, |w.db.tasks|, priority, maxAttempts)]))
    case RequestCancel(j) => w.(db := RequestCancelOf(w.db, j))
    case Unbind(t) =>
      if t < |w.db.tasks| then w.(db := SetTask(w.db, t, w.db.tasks[t].(wellBound := false))) else w
    case MarkCleaned(i) =>
      if i < |w.db.artifacts| then
        w.(db := w.db.(artifacts := w.db.artifacts[i := w.db.artifacts[i].(cleaned := true)]))
      else w
    case _ =>
      if a.k < |w.issued| then
        var tx := LeaseTx(w, a, w.issued[a.k]);
        w.(db := tx.db,
           claimed := if a.ClaimBuild? && tx.reply == Yes then w.claimed + {w.issued[a.k].execution} else w.claimed)
      else w
  }

  function Run(w: World, actions: seq<Action>): World
    decreases |actions|
  {
    if |actions| == 0 then w else Run(Apply(w, actions[0]), actions[1..])
  }

  function Init(now: nat, leaseSeconds: nat): World {
    World(Db([], [], [], [], [], map[]), now, leaseSeconds, [], {})
  }
}
