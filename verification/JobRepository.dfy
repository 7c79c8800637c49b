/**
  The repository object itself: its methods update the stored rows, each in one transaction,
  and are proved against the transaction functions.
 */
module JobRepositories {
  import opened Options
  import opened Leases
  import opened LeaseInvariants
  import opened LeaseRuns
  import opened LeaseTheorems

  // ---------------------------------------------------------------- the claiming loop

  function ActiveJobs(jobs: seq<Job>): nat {
    if |jobs| == 0 then 0
    else ActiveJobs(jobs[..|jobs| - 1]) + (if TerminalJob(jobs[|jobs| - 1].status) then 0 else 1)
  }

  lemma {:induction false} EndingOneJob(jobs: seq<Job>, j: nat, job: Job)
    requires j < |jobs| && !TerminalJob(jobs[j].status) && TerminalJob(job.status)
    ensures ActiveJobs(jobs[j := job]) == ActiveJobs(jobs) - 1
  {
    var n := |jobs| - 1;
    if j < n {
      EndingOneJob(jobs[..n], j, job);
      assert jobs[j := job][..n] == jobs[..n][j := job];
    } else {
      assert jobs[j := job][..n] == jobs[..n];
    }
  }

  lemma ExhaustingShrinks(db: Db, now: nat)
    requires Candidate(db.jobs, now).Some?
    ensures ActiveJobs(FailJob(db, Candidate(db.jobs, now).value).jobs) < ActiveJobs(db.jobs)
  {
    var j := Candidate(db.jobs, now).value;
    EndingOneJob(db.jobs, j, EndJob(db, j, Failed).jobs[j]);
  }

  datatype Claiming = Claiming(db: Db, lease: Option<Lease>, used: nat)

  // All passes of claim_next: each reads the clock again, and an exhausted row is failed and
  // passed over.  It ends because every such row leaves the active ones.
  function ClaimAll(db: Db, clock: nat -> nat, tick: nat, worker: Id, execution: Id, leaseSeconds: nat): Claiming
    decreases ActiveJobs(db.jobs)
  {
    match ClaimOnce(db, clock(tick), worker, execution, leaseSeconds)
    case Nothing => Claiming(db, None, tick + 1)
    case Claimed(db', lease) => Claiming(db', Some(lease), tick + 1)
    case Exhausted(db') =>
      ExhaustingShrinks(db, clock(tick));
      ClaimAll(db', clock, tick + 1, worker, execution, leaseSeconds)
  }

  function Reading(clock: nat -> nat, i: nat): nat { clock(i) }

  // The clock never goes back.
  ghost predicate Monotone(clock: nat -> nat, from: nat) {
    forall i: nat, j: nat {:trigger Reading(clock, i), Reading(clock, j)} ::
      from <= i <= j ==> Reading(clock, i) <= Reading(clock, j)
  }

  lemma NextReading(clock: nat -> nat, tick: nat)
    requires Monotone(clock, tick)
    ensures Monotone(clock, tick + 1) && clock(tick) <= clock(tick + 1)
  {
    assert Reading(clock, tick) <= Reading(clock, tick + 1);
  }

  // The world a claim leaves behind.
  function ClaimedWorld(w: World, r: Claiming, at: nat): World {
    w.(db := r.db, now := at, issued := match r.lease case Some(lease) => w.issued + [lease] case None => w.issued)
  }

  ghost predicate GoodLease(worker: Id, execution: Id, r: Claiming, at: nat) {
    match r.lease
    case Some(lease) =>
      lease.execution == execution && lease.worker == worker && lease.attempts <= lease.maxAttempts && Owns(r.db, lease, at)
    case None => Candidate(r.db.jobs, at).None?
  }

  ghost predicate SameButRows(w: World, w1: World) {
    w1.leaseSeconds == w.leaseSeconds && w1.issued == w.issued && w1.claimed == w.claimed
  }

  lemma PassOver(w: World, now: nat, worker: Id, execution: Id) returns (next: World)
    requires Inv(w) && w.now <= now && ClaimOnce(w.db, now, worker, execution, w.leaseSeconds).Exhausted?
    ensures Inv(next) && SameButRows(w, next) && next.now == now
    ensures next.db == ClaimOnce(w.db, now, worker, execution, w.leaseSeconds).db
    ensures ActiveJobs(next.db.jobs) < ActiveJobs(w.db.jobs)
  {
    next := w.(now := now, db := ClaimOnce(w.db, now, worker, execution, w.leaseSeconds).db);
    ExhaustedPass(w, now, worker, execution);
  }

  datatype Pass = Pass(db: Db, tick: nat)

  // The last pass, after those that met rows whose attempts were used up.
  function LastPass(db: Db, clock: nat -> nat, tick: nat, worker: Id, execution: Id, leaseSeconds: nat): (last: Pass)
    ensures last.tick >= tick && !ClaimOnce(last.db, clock(last.tick), worker, execution, leaseSeconds).Exhausted?
    decreases ActiveJobs(db.jobs)
  {
    match ClaimOnce(db, clock(tick), worker, execution, leaseSeconds)
    case Exhausted(db') =>
      ExhaustingShrinks(db, clock(tick));
      LastPass(db', clock, tick + 1, worker, execution, leaseSeconds)
    case _ => Pass(db, tick)
  }

  lemma {:induction false} ClaimIsLastPass(db: Db, clock: nat -> nat, tick: nat, worker: Id, execution: Id, leaseSeconds: nat)
    ensures var last := LastPass(db, clock, tick, worker, execution, leaseSeconds);
      ClaimAll(db, clock, tick, worker, execution, leaseSeconds)
      == ClaimAll(last.db, clock, last.tick, worker, execution, leaseSeconds)
    decreases ActiveJobs(db.jobs)
  {
    var claim := ClaimOnce(db, clock(tick), worker, execution, leaseSeconds);
    if claim.Exhausted? {
      ExhaustingShrinks(db, clock(tick));
      ClaimIsLastPass(claim.db, clock, tick + 1, worker, execution, leaseSeconds);
    }
  }

  lemma {:induction false} PassesKeep(w: World, clock: nat -> nat, tick: nat, worker: Id, execution: Id)
    returns (last: World)
    requires Inv(w) && Monotone(clock, tick) && w.now <= clock(tick)
    ensures var pass := LastPass(w.db, clock, tick, worker, execution, w.leaseSeconds);
      Inv(last) && SameButRows(w, last) && last.db == pass.db && last.now <= clock(pass.tick)
    decreases ActiveJobs(w.db.jobs)
  {
    if ClaimOnce(w.db, clock(tick), worker, execution, w.leaseSeconds).Exhausted? {
      var next := PassOver(w, clock(tick), worker, execution);
      NextReading(clock, tick);
      last := PassesKeep(next, clock, tick + 1, worker, execution);
    } else {
      last := w;
    }
  }

  lemma FinalPass(w: World, clock: nat -> nat, tick: nat, worker: Id, execution: Id)
    requires Inv(w) && FreshExecution(w, execution) && w.now <= clock(tick)
    requires !ClaimOnce(w.db, clock(tick), worker, execution, w.leaseSeconds).Exhausted?
    ensures var r := ClaimAll(w.db, clock, tick, worker, execution, w.leaseSeconds);
      && r.used == tick + 1 && GoodLease(worker, execution, r, clock(tick))
      && Inv(ClaimedWorld(w, r, clock(tick)))
  {
    if ClaimOnce(w.db, clock(tick), worker, execution, w.leaseSeconds).Nothing? {
      NothingPass(w, clock(tick), worker, execution, tick);
    } else {
      ClaimedPass(w, clock(tick), worker, execution, tick);
    }
  }

  lemma SameWorld(w: World, w1: World, r: Claiming, at: nat)
    requires SameButRows(w, w1)
    ensures ClaimedWorld(w, r, at) == ClaimedWorld(w1, r, at)
  {
  }

  // A claim that returns a lease leaves it owning its job; one that returns nothing saw no
  // claimable row; either way the protocol's invariant holds of what is left.
  lemma ClaimAllKeeps(w: World, clock: nat -> nat, tick: nat, worker: Id, execution: Id)
    requires Inv(w) && FreshExecution(w, execution) && Monotone(clock, tick) && w.now <= clock(tick)
    ensures var r := ClaimAll(w.db, clock, tick, worker, execution, w.leaseSeconds);
      && r.used > tick && GoodLease(worker, execution, r, clock(r.used - 1))
      && Inv(ClaimedWorld(w, r, clock(r.used - 1)))
  {
    var last := PassesKeep(w, clock, tick, worker, execution);
    ClaimIsLastPass(w.db, clock, tick, worker, execution, w.leaseSeconds);
    var pass := LastPass(w.db, clock, tick, worker, execution, w.leaseSeconds);
    FinalPass(last, clock, pass.tick, worker, execution);
    SameWorld(w, last, ClaimAll(w.db, clock, tick, worker, execution, w.leaseSeconds), clock(pass.tick));
  }

  lemma NothingPass(w: World, now: nat, worker: Id, execution: Id, tick: nat)
    requires Inv(w) && w.now <= now && ClaimOnce(w.db, now, worker, execution, w.leaseSeconds).Nothing?
    ensures Inv(ClaimedWorld(w, Claiming(w.db, None, tick + 1), now))
    ensures Candidate(w.db.jobs, now).None?
  {
    LaterKeeps(w, now);
    assert ClaimedWorld(w, Claiming(w.db, None, tick + 1), now) == w.(now := now);
  }

  lemma ClaimedPass(w: World, now: nat, worker: Id, execution: Id, tick: nat)
    requires Inv(w) && FreshExecution(w, execution) && w.now <= now
    requires ClaimOnce(w.db, now, worker, execution, w.leaseSeconds).Claimed?
    ensures var claim := ClaimOnce(w.db, now, worker, execution, w.leaseSeconds);
      var r := Claiming(claim.db, Some(claim.lease), tick + 1);
      GoodLease(worker, execution, r, now) && Inv(ClaimedWorld(w, r, now))
  {
    var j := Candidate(w.db.jobs, now).value;
    LaterKeeps(w, now);
    GrantKeeps(w.(now := now), j, worker, execution);
    GrantOwns(w.(now := now), j, worker, execution);
    assert ClaimedWorld(w, Claiming(Grant(w.db, j, worker, execution, now + w.leaseSeconds),
                                    Some(LeaseFor(w.db, j, worker, execution)), tick + 1), now)
        == w.(now := now).(db := Grant(w.db, j, worker, execution, now + w.leaseSeconds),
                           issued := w.issued + [LeaseFor(w.db, j, worker, execution)]);
  }

  lemma ExhaustedPass(w: World, now: nat, worker: Id, execution: Id)
    requires Inv(w) && w.now <= now
    requires ClaimOnce(w.db, now, worker, execution, w.leaseSeconds).Exhausted?
    ensures var db := ClaimOnce(w.db, now, worker, execution, w.leaseSeconds).db;
      Inv(w.(now := now, db := db)) && ActiveJobs(db.jobs) < ActiveJobs(w.db.jobs)
  {
    LaterKeeps(w, now);
    ExhaustingShrinks(w.db, now);
    ExhaustKeeps(w.(now := now), Candidate(w.db.jobs, now).value);
  }

  lemma LaterKeeps(w: World, now: nat)
    requires Inv(w) && w.now <= now
    ensures Inv(w.(now := now))
  {
    UnbindAndTickKeep(w, Tick(now - w.now));
    assert Apply(w, Tick(now - w.now)) == w.(now := now);
  }

  lemma GrantOwns(w: World, j: nat, worker: Id, execution: Id)
    requires j < |w.db.jobs| && w.leaseSeconds > 0
    ensures Owns(Grant(w.db, j, worker, execution, w.now + w.leaseSeconds), LeaseFor(w.db, j, worker, execution), w.now)
  {
  }

  // ---------------------------------------------------------------- the object

  datatype RowClaim = NoRow | UsedUp | Row(lease: Lease)

  // The tables are fields; a method is a transaction of single statements, each updating the
  // rows that meet its own condition and saying whether there were any.
  class JobRepository {
    const leaseSeconds: nat
    var jobs: seq<Job>
    var tasks: seq<Task>
    var files: seq<ParseStatus>
    var artifacts: seq<Artifact>
    var logs: seq<LogLine>
    var packages: map<nat, seq<Id>>

    ghost function Rows(): Db
      reads this
    {
      Db(jobs, tasks, files, artifacts, logs, packages)
    }

    constructor (leaseSeconds: nat)
      requires leaseSeconds > 0
      ensures this.leaseSeconds == leaseSeconds && Rows() == Init(0, leaseSeconds).db
    {
      this.leaseSeconds := leaseSeconds;
      jobs, tasks, files, artifacts, logs, packages := [], [], [], [], [], map[];
    }

    // ------------------------------------------------------------ single statements

    predicate OwnedRow(lease: Lease, now: nat)
      reads `jobs
      ensures OwnedRow(lease, now) ==> lease.job < |jobs|
      ensures OwnedRow(lease, now) == Owns(Db(jobs, [], [], [], [], map[]), lease, now)
    {
      && lease.job < |jobs|
      && var job := jobs[lease.job];
      && job.status == Running && job.owner == Some(lease.worker) && job.execution == Some(lease.execution)
      && job.expires.Some? && job.expires.value > now
    }

    // Ends the lease and sets the status, where the lease owns the row.
    method UpdateOwnedJob(lease: Lease, now: nat, status: JobStatus, available: Option<nat>) returns (updated: bool)
      modifies `jobs
      ensures updated == Owns(old(Rows()), lease, now)
      ensures !updated ==> jobs == old(jobs)
      ensures updated ==>
        var row := EndJob(old(Rows()), lease.job, status).jobs[lease.job];
        jobs == old(jobs)[lease.job := if available.Some? then row.(availableAt := available.value) else row]
    {
      updated := OwnedRow(lease, now);
      if updated {
        var at := if available.Some? then available.value else jobs[lease.job].availableAt;
        jobs := jobs[lease.job := jobs[lease.job].(status := status, owner := None, execution := None, expires := None,
                                                   availableAt := at)];
      }
    }

    method RenewOwnedJob(lease: Lease, now: nat) returns (updated: bool)
      modifies `jobs
      ensures updated == Owns(old(Rows()), lease, now)
      ensures jobs == if updated then old(jobs)[lease.job := old(jobs)[lease.job].(expires := Some(now + leaseSeconds))] else old(jobs)
    {
      updated := OwnedRow(lease, now);
      if updated {
        jobs := jobs[lease.job := jobs[lease.job].(expires := Some(now + leaseSeconds))];
      }
    }

    // Sets the status of the task, where it shows the lease's execution and, if asked, is live.
    method UpdateHeldTask(lease: Lease, live: bool, status: TaskStatus) returns (updated: bool)
      modifies `tasks
      ensures updated == (HoldsTask(old(Rows()), lease) && !(live && TerminalTask(old(tasks)[lease.subject].status)))
      ensures tasks == if updated then old(tasks)[lease.subject := old(tasks)[lease.subject].(status := status)] else old(tasks)
    {
      updated := lease.subject < |tasks| && tasks[lease.subject].execution == Some(lease.execution)
        && !(live && TerminalTask(tasks[lease.subject].status));
      if updated {
        tasks := tasks[lease.subject := tasks[lease.subject].(status := status)];
      }
    }

    // Fails the subject, unless it already ended.
    method TerminalizeRow(jobType: JobType, subject: nat)
      modifies `tasks, `files
      ensures Rows() == TerminalizeSubject(old(Rows()), jobType, subject)
    {
      if jobType.Parse? {
        if subject < |files| && files[subject] != Parsed && files[subject] != ParseFailed {
          files := files[subject := ParseFailed];
        }
      } else if subject < |tasks| && !TerminalTask(tasks[subject].status) {
        tasks := tasks[subject := tasks[subject].(status := TaskFailed)];
      }
    }

    // Frees the subject for the next lease, where this lease held it.
    method ResetRow(lease: Lease)
      modifies `tasks, `files
      ensures Rows() == ResetSubject(old(Rows()), lease)
    {
      if lease.jobType.Build? {
        if lease.subject < |tasks| && tasks[lease.subject].execution == Some(lease.execution) {
          tasks := tasks[lease.subject := tasks[lease.subject].(execution := None, status := Queued)];
        }
      } else if lease.subject < |files| && files[lease.subject] == Parsing {
        files := files[lease.subject := Pending];
      }
    }

    // ------------------------------------------------------------ transactions

    method ClaimNext(worker: Id, execution: Id, clock: nat -> nat) returns (lease: Option<Lease>)
      modifies this
      ensures var r := ClaimAll(old(Rows()), clock, 0, worker, execution, leaseSeconds);
        Rows() == r.db && lease == r.lease
    {
      var tick := 0;
      while true
        invariant ClaimAll(Rows(), clock, tick, worker, execution, leaseSeconds)
               == ClaimAll(old(Rows()), clock, 0, worker, execution, leaseSeconds)
        decreases ActiveJobs(jobs)
      {
        ghost var before, at := Rows(), clock(tick);
        var claim := ClaimRow(worker, execution, clock(tick));
        tick := tick + 1;
        if claim.Row? {
          return Some(claim.lease);
        }
        if claim.NoRow? {
          return None;
        }
        ExhaustingShrinks(before, at);
      }
    }

    // One pass: nothing to claim, a row whose attempts are used up, or a lease.
    method ClaimRow(worker: Id, execution: Id, now: nat) returns (claim: RowClaim)
      modifies this
      ensures match ClaimOnce(old(Rows()), now, worker, execution, leaseSeconds)
        case Nothing => claim.NoRow? && Rows() == old(Rows())
        case Exhausted(db) => claim.UsedUp? && Rows() == db
        case Claimed(db, lease) => claim == Row(lease) && Rows() == db
    {
      var row := Candidate(jobs, now);
      if row.None? {
        return NoRow;
      }
      var j := row.value;
      var job := jobs[j];
      if job.attempts >= job.maxAttempts {
        TerminalizeExhausted(j);
        return UsedUp;
      }
      var reclaimed := job.status == Running;
      jobs := jobs[j := job.(status := Running, attempts := job.attempts + 1, owner := Some(worker),
                             execution := Some(execution), expires := Some(now + leaseSeconds))];
      return Row(Lease(j, job.jobType, job.subject, worker, execution, job.attempts + 1, job.maxAttempts,
                       reclaimed, if reclaimed then job.execution else None));
    }

    // Fails a row and, unless it already ended, the subject it worked on.
    method TerminalizeExhausted(j: nat)
      requires j < |jobs|
      modifies this
      ensures Rows() == FailJob(old(Rows()), j)
    {
      var job := jobs[j];
      jobs := jobs[j := job.(status := Failed, owner := None, execution := None, expires := None)];
      TerminalizeRow(job.jobType, job.subject);
    }

    method Heartbeat(lease: Lease, now: nat) returns (ok: bool)
      modifies this
      ensures Tx(Rows(), if ok then Yes else No) == HeartbeatTx(old(Rows()), lease, now, leaseSeconds)
    {
      ok := RenewOwnedJob(lease, now);
    }

    method FailTerminal(lease: Lease, now: nat) returns (ok: bool)
      modifies this
      ensures Tx(Rows(), if ok then Yes else No) == FailTx(old(Rows()), lease, now)
    {
      ok := UpdateOwnedJob(lease, now, Failed, None);
      if ok {
        TerminalizeRow(lease.jobType, lease.subject);
      }
    }

    method RetryOrFail(lease: Lease, now: nat, retryable: bool, delay: nat) returns (ok: bool)
      modifies this
      ensures Tx(Rows(), if ok then Yes else No) == RetryTx(old(Rows()), lease, now, retryable, delay)
    {
      if retryable && lease.attempts < lease.maxAttempts {
        ok := UpdateOwnedJob(lease, now, Ready, Some(now + delay));
        if ok {
          ResetRow(lease);
        }
      } else {
        ok := FailTerminal(lease, now);
      }
    }

    method ClaimParseSubject(lease: Lease, now: nat) returns (ok: bool)
      modifies this
      ensures Tx(Rows(), if ok then Yes else No) == ClaimParseTx(old(Rows()), lease, now)
    {
      ok := false;
      if !OwnedRow(lease, now) {
        return;
      }
      var expected := if lease.reclaimed then Parsing else Pending;
      if lease.subject >= |files| || files[lease.subject] != expected || (lease.reclaimed && lease.previous.None?) {
        var _ := FailTerminal(lease, now);
        return;
      }
      files := files[lease.subject := Parsing];
      ok := true;
    }

    // Whatever refuses the claim, the row read at the start still meets the update's conditions.
    method ClaimBuildSubject(lease: Lease, now: nat) returns (ok: bool)
      modifies this
      ensures Tx(Rows(), if ok then Yes else No) == ClaimBuildTx(old(Rows()), lease, now)
    {
      ok := false;
      if !OwnedRow(lease, now) {
        return;
      }
      if lease.subject >= |tasks| || tasks[lease.subject].file >= |files| {
        var _ := FailTerminal(lease, now);
        return;
      }
      var task := tasks[lease.subject];
      var initial := !lease.reclaimed && task.status == Queued && task.execution.None?;
      var takeover := lease.reclaimed && lease.previous.Some? && !TerminalTask(task.status) && task.execution == lease.previous;
      if !task.wellBound || files[task.file] != Parsed || !(initial || takeover) {
        var _ := FailTerminal(lease, now);
        return;
      }
      assert task.execution == if takeover then lease.previous else None;
      tasks := tasks[lease.subject := task.(execution := Some(lease.execution), status := Resolving)];
      if !task.snapshotOk {
        var _ := FailTerminal(lease, now);
        return;
      }
      ok := true;
    }

    // Raising inside the transaction puts back the rows it began with.
    method AdvanceBuild(lease: Lease, now: nat, status: TaskStatus) returns (reply: Reply)
      modifies this
      ensures Tx(Rows(), reply) == AdvanceTx(old(Rows()), lease, now, leaseSeconds, status)
    {
      var before := jobs;
      var renewed := RenewOwnedJob(lease, now);
      if !renewed {
        return Raised;
      }
      var moved := UpdateHeldTask(lease, true, status);
      if !moved {
        jobs := before;
        return Raised;
      }
      reply := AppendLog(lease);
    }

    method AppendLog(lease: Lease) returns (reply: Reply)
      modifies `logs
      ensures Tx(Rows(), reply) == AppendLogTx(old(Rows()), lease)
    {
      if lease.subject >= |tasks| || tasks[lease.subject].execution != Some(lease.execution) {
        return Raised;
      }
      var sequence := 0;
      var i := 0;
      while i < |logs|
        invariant i <= |logs| && logs == old(logs)
        invariant sequence == MaxSequence(logs[..i], lease.subject)
      {
        assert logs[..i + 1][..i] == logs[..i];
        if logs[i].task == lease.subject && logs[i].sequence > sequence {
          sequence := logs[i].sequence;
        }
        i := i + 1;
      }
      assert logs[..i] == logs;
      logs := logs + [LogLine(lease.subject, sequence + 1)];
      reply := Yes;
    }

    // The last statement updates the row that the first one found owned, so the raise after it
    // does not happen.
    method CancelBuild(lease: Lease, now: nat) returns (ok: bool)
      modifies this
      ensures Tx(Rows(), if ok then Yes else No) == CancelTx(old(Rows()), lease, now)
    {
      if !OwnedRow(lease, now) || lease.subject >= |tasks| || !tasks[lease.subject].cancelRequested {
        return false;
      }
      ok := UpdateHeldTask(lease, false, TaskCancelled);
      if ok {
        var ended := UpdateOwnedJob(lease, now, Cancelled, None);
        assert ended;
      }
    }

    // Nor does it here: both updates after the insertion find their rows.
    method PublishArtifactTerminal(lease: Lease, now: nat, id: Id, key: ArtifactKey, status: TaskStatus)
      returns (reply: Reply)
      modifies this
      ensures Tx(Rows(), reply) == PublishTx(old(Rows()), lease, now, id, key, status)
    {
      if || !OwnedRow(lease, now) || lease.subject >= |tasks|
         || tasks[lease.subject].execution != Some(lease.execution) || tasks[lease.subject].cancelRequested {
        return No;
      }
      var clash := TakenBy(id, key);
      if clash {
        return Raised;
      }
      artifacts := artifacts + [Artifact(id, lease.subject, key, false)];
      var moved := UpdateHeldTask(lease, false, status);
      var ended := UpdateOwnedJob(lease, now, Completed, None);
      assert moved && ended;
      reply := Yes;
    }

    // The unique columns of the artifact table.
    method TakenBy(id: Id, key: ArtifactKey) returns (taken: bool)
      ensures taken <==> exists a :: a in artifacts && (a.id == id || a.key == key)
    {
      var i := 0;
      while i < |artifacts|
        invariant i <= |artifacts|
        invariant forall a :: a in artifacts[..i] ==> a.id != id && a.key != key
      {
        if artifacts[i].id == id || artifacts[i].key == key {
          assert artifacts[i] in artifacts;
          return true;
        }
        i := i + 1;
      }
      assert artifacts[..i] == artifacts;
      return false;
    }
  }

  // ---------------------------------------------------------------- log numbering

  function LogCount(logs: seq<LogLine>, t: nat): nat {
    if |logs| == 0 then 0
    else LogCount(logs[..|logs| - 1], t) + (if logs[|logs| - 1].task == t then 1 else 0)
  }

  // The lines of a task are numbered 1, 2, 3, ... in the order they were written.
  ghost predicate Numbered(logs: seq<LogLine>) {
    forall k :: 0 <= k < |logs| ==> logs[k].sequence == LogCount(logs[..k], logs[k].task) + 1
  }

  lemma {:induction false} MaxIsCount(logs: seq<LogLine>, t: nat)
    requires Numbered(logs)
    ensures MaxSequence(logs, t) == LogCount(logs, t)
  {
    if |logs| > 0 {
      var n := |logs| - 1;
      forall k | 0 <= k < n
        ensures logs[..n][..k] == logs[..k]
      {
      }
      MaxIsCount(logs[..n], t);
    }
  }

  lemma NextLineNumbered(logs: seq<LogLine>, t: nat)
    requires Numbered(logs)
    ensures Numbered(logs + [LogLine(t, MaxSequence(logs, t) + 1)])
  {
    MaxIsCount(logs, t);
    var grown := logs + [LogLine(t, MaxSequence(logs, t) + 1)];
    forall k | 0 <= k < |grown|
      ensures grown[k].sequence == LogCount(grown[..k], grown[k].task) + 1
    {
      assert grown[..k] == logs[..k];
      assert logs[..|logs|] == logs;
    }
  }

  ghost predicate AddsOneLine(w: World, w': World, t: nat) {
    w'.db.logs == w.db.logs || w'.db.logs == w.db.logs + [LogLine(t, MaxSequence(w.db.logs, t) + 1)]
  }

  // An action adds at most one line, for the task of the lease it acts under.
  lemma WritersAddALine(w: World, a: Action)
    requires (a.Log? || a.Persist? || a.Advance?) && a.k < |w.issued|
    ensures AddsOneLine(w, Apply(w, a), w.issued[a.k].subject)
  {
  }

  lemma OthersAddNone(w: World, a: Action)
    requires !a.Log? && !a.Persist? && !a.Advance?
    ensures Apply(w, a).db.logs == w.db.logs
  {
  }

  lemma StepKeepsNumbering(w: World, a: Action)
    requires Numbered(w.db.logs)
    ensures Numbered(Apply(w, a).db.logs)
  {
    if !a.Log? && !a.Persist? && !a.Advance? {
      OthersAddNone(w, a);
    } else if a.k < |w.issued| {
      WritersAddALine(w, a);
      OneLineMore(w.db.logs, Apply(w, a).db.logs, w.issued[a.k].subject);
    }
  }

  lemma OneLineMore(logs: seq<LogLine>, next: seq<LogLine>, t: nat)
    requires Numbered(logs)
    requires next == logs || next == logs + [LogLine(t, MaxSequence(logs, t) + 1)]
    ensures Numbered(next)
  {
    NextLineNumbered(logs, t);
  }

  lemma {:induction false} LogsStayNumbered(w: World, actions: seq<Action>)
    requires Numbered(w.db.logs)
    ensures Numbered(Run(w, actions).db.logs)
    decreases |actions|
  {
    if |actions| > 0 {
      StepKeepsNumbering(w, actions[0]);
      LogsStayNumbered(Apply(w, actions[0]), actions[1..]);
    }
  }
}
