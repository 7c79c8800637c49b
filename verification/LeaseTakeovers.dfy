/**
  When a lease that was taken over, or retried, can still bring its job to an end, and the
  cases in which a job with attempts left is nevertheless lost.
 */
module LeaseTakeovers {
  import opened Options
  import opened Leases
  import opened LeaseInvariants
  import opened LeaseRuns
  import opened LeaseTheorems

  // ---------------------------------------------------------------- when a takeover works

  // A reclaimed lease can claim its build, binding aside, exactly when the holder it replaces
  // had claimed it: a worker that stops between the two claims dooms the job.
  lemma TakeoverIffPredecessorClaimed(w: World, k: nat)
    requires Inv(w) && k < |w.issued| && Owns(w.db, w.issued[k], w.now)
    requires w.issued[k].jobType.Build? && w.issued[k].reclaimed && w.issued[k].execution !in w.claimed
    requires var task := w.db.tasks[w.issued[k].subject]; ValidBinding(w.db, task) && task.snapshotOk
    ensures w.issued[k].previous.Some?
    ensures ClaimBuildTx(w.db, w.issued[k], w.now).reply == Yes <==> w.issued[k].previous.value in w.claimed
    ensures w.issued[k].previous.value !in w.claimed ==>
      var j := w.issued[k].job;
      Apply(w, ClaimBuild(k)).db.jobs[j].status == Failed
  {
    OwnedJob(w, k);
  }

  // A database with one parsed requirement file, reached from the empty one in four steps.
  function OneParsedFile(): World {
    World(Db([Job(Parse, 0, Completed, 1, 0, 0, 1, 3, None, None, None)], [], [Parsed], [], [], map[]),
          0, 10, [Lease(0, Parse, 0, 1, 101, 1, 3, false, None)], {})
  }

  lemma OneParsedFileIsReached()
    ensures Apply(Apply(Apply(Apply(Init(0, 10), SubmitParse(1, 3)), ClaimNext(1, 101)), ClaimParse(0)), CompleteParse(0))
         == OneParsedFile()
  {
    var w1 := Apply(Init(0, 10), SubmitParse(1, 3));
    assert w1.db.jobs == [Job(Parse, 0, Ready, 1, 0, 0, 0, 3, None, None, None)];
    assert BestReady(w1.db.jobs, 0, 0) == None;
    assert BestReady(w1.db.jobs, 0, 1) == Some(0);
    var w2 := Apply(w1, ClaimNext(1, 101));
    assert w2.issued == [Lease(0, Parse, 0, 1, 101, 1, 3, false, None)];
  }

  // A build whose first worker stopped before claiming it, taken over by a second worker.
  function UnclaimedTakeover(): World {
    var parsed := OneParsedFile();
    parsed.(now := 10,
            db := parsed.db.(jobs := parsed.db.jobs + [Job(Build, 0, Running, 1, 0, 0, 2, 3, Some(2), Some(103), Some(20))],
                             tasks := [Task(Queued, None, false, 0, true, true)]),
            issued := parsed.issued + [Lease(1, Build, 0, 1, 102, 1, 3, false, None),
                                       Lease(1, Build, 0, 2, 103, 2, 3, true, Some(102))])
  }

  lemma UnclaimedTakeoverIsReached()
    ensures Apply(Apply(Apply(Apply(OneParsedFile(), SubmitBuild(0, true, true, 1, 3)), ClaimNext(1, 102)), Tick(10)),
                  ClaimNext(2, 103))
         == UnclaimedTakeover()
  {
    var w1 := Apply(OneParsedFile(), SubmitBuild(0, true, true, 1, 3));
    var build := Job(Build, 0, Ready, 1, 0, 0, 0, 3, None, None, None);
    assert w1.db.jobs == OneParsedFile().db.jobs + [build];
    FirstOfTwo(w1.db.jobs, 0);
    var w2 := Apply(w1, ClaimNext(1, 102));
    assert w2.issued == OneParsedFile().issued + [Lease(1, Build, 0, 1, 102, 1, 3, false, None)];
    var w3 := Apply(w2, Tick(10));
    assert w3.db.jobs == OneParsedFile().db.jobs + [Job(Build, 0, Running, 1, 0, 0, 1, 3, Some(1), Some(102), Some(10))];
    FirstOfTwo(w3.db.jobs, 10);
    var w4 := Apply(w3, ClaimNext(2, 103));
    assert w4.issued == UnclaimedTakeover().issued;
    assert w4.db.jobs == UnclaimedTakeover().db.jobs;
  }

  lemma FirstOfTwo(jobs: seq<Job>, now: nat)
    requires |jobs| == 2 && TerminalJob(jobs[0].status)
    ensures BestReady(jobs, now, 2) == if ClaimableReady(jobs[1], now) then Some(1) else None
    ensures BestExpired(jobs, now, 2) == if ClaimableExpired(jobs[1], now) then Some(1) else None
  {
    assert BestReady(jobs, now, 0) == None && BestReady(jobs, now, 1) == None;
    assert BestExpired(jobs, now, 0) == None && BestExpired(jobs, now, 1) == None;
  }

  // The second worker owns the job and an attempt is left, yet its claim fails the job for good.
  lemma TakeoverCanDoomAJob()
    ensures var w := UnclaimedTakeover();
      && Owns(w.db, w.issued[2], w.now) && w.db.jobs[1].attempts < w.db.jobs[1].maxAttempts
      && ValidBinding(w.db, w.db.tasks[0]) && w.db.tasks[0].snapshotOk
      && Apply(w, ClaimBuild(2)).db.jobs[1].status == Failed
      && Apply(w, ClaimBuild(2)).db.tasks[0].status == TaskFailed
  {
    var w := UnclaimedTakeover();
    assert w.issued[2] == Lease(1, Build, 0, 2, 103, 2, 3, true, Some(102));
    assert w.db.jobs[1] == Job(Build, 0, Running, 1, 0, 0, 2, 3, Some(2), Some(103), Some(20));
  }

  // A reclaimed lease can claim its requirement file exactly when the file is being parsed: a
  // parse worker that stops between the two claims dooms its job as well.
  lemma ParseTakeoverIffParsing(w: World, k: nat)
    requires Inv(w) && k < |w.issued| && Owns(w.db, w.issued[k], w.now)
    requires w.issued[k].jobType.Parse? && w.issued[k].reclaimed
    ensures ClaimParseTx(w.db, w.issued[k], w.now).reply == Yes
       <==> w.issued[k].previous.Some? && w.db.files[w.issued[k].subject] == Parsing
    ensures w.db.files[w.issued[k].subject] != Parsing ==>
      var w' := Apply(w, ClaimParse(k));
      w'.db.jobs[w.issued[k].job].status == Failed && w'.db.files[w.issued[k].subject] == ParseFailed
  {
    OwnedJob(w, k);
  }

  // A parse whose first worker stopped before claiming the file, taken over by a second worker.
  function UnclaimedParse(): World {
    World(Db([Job(Parse, 0, Running, 1, 0, 0, 2, 3, Some(2), Some(102), Some(20))], [], [Pending], [], [], map[]),
          10, 10, [Lease(0, Parse, 0, 1, 101, 1, 3, false, None), Lease(0, Parse, 0, 2, 102, 2, 3, true, Some(101))], {})
  }

  lemma UnclaimedParseIsReached()
    ensures Apply(Apply(Apply(Apply(Init(0, 10), SubmitParse(1, 3)), ClaimNext(1, 101)), Tick(10)), ClaimNext(2, 102))
         == UnclaimedParse()
  {
    var w1 := Apply(Init(0, 10), SubmitParse(1, 3));
    assert w1.db.jobs == [Job(Parse, 0, Ready, 1, 0, 0, 0, 3, None, None, None)];
    OnlyOne(w1.db.jobs, 0);
    var w2 := Apply(w1, ClaimNext(1, 101));
    assert w2.issued == [Lease(0, Parse, 0, 1, 101, 1, 3, false, None)];
    var w3 := Apply(w2, Tick(10));
    assert w3.db.jobs == [Job(Parse, 0, Running, 1, 0, 0, 1, 3, Some(1), Some(101), Some(10))];
    OnlyOne(w3.db.jobs, 10);
    var w4 := Apply(w3, ClaimNext(2, 102));
    assert w4.issued == UnclaimedParse().issued;
    assert w4.db.jobs == UnclaimedParse().db.jobs;
  }

  lemma ParseTakeoverCanDoomAJob()
    ensures var w := UnclaimedParse();
      && Owns(w.db, w.issued[1], w.now) && w.db.jobs[0].attempts < w.db.jobs[0].maxAttempts
      && Apply(w, ClaimParse(1)).db.jobs[0].status == Failed
  {
    var w := UnclaimedParse();
    assert w.issued[1] == Lease(0, Parse, 0, 2, 102, 2, 3, true, Some(101));
  }

  lemma OnlyOne(jobs: seq<Job>, now: nat)
    requires |jobs| == 1
    ensures BestReady(jobs, now, 1) == if ClaimableReady(jobs[0], now) then Some(0) else None
    ensures BestExpired(jobs, now, 1) == if ClaimableExpired(jobs[0], now) then Some(0) else None
  {
    assert BestReady(jobs, now, 0) == None && BestExpired(jobs, now, 0) == None;
  }

  // A retry puts the task back in the queue, for the next lease to claim, exactly when the
  // retrying lease had claimed it or nobody had; a taken-over lease that retries before its
  // claim leaves the task with an execution no later lease will match.
  lemma RetryRequeuesIff(w: World, k: nat, delay: nat)
    requires Inv(w) && k < |w.issued| && Owns(w.db, w.issued[k], w.now)
    requires w.issued[k].jobType.Build? && w.issued[k].attempts < w.issued[k].maxAttempts
    ensures var w' := Apply(w, Retry(k, true, delay));
      var lease := w.issued[k];
      && w'.db.jobs[lease.job].status == Ready
      && (w'.db.tasks[lease.subject].status == Queued && w'.db.tasks[lease.subject].execution.None?
          <==> lease.execution in w.claimed || w.db.tasks[lease.subject].status == Queued)
  {
    OwnedJob(w, k);
  }

  // ---------------------------------------------------------------- stranded builds

  // The task of a live build shows an execution that neither the job's lease nor the one that
  // lease replaced was issued with; or the job has ended without completing.
  ghost predicate Stranded(w: World, j: nat) {
    && j < |w.db.jobs| && w.db.jobs[j].jobType.Build? && w.db.jobs[j].subject < |w.db.tasks|
    && var job := w.db.jobs[j];
    && var task := w.db.tasks[job.subject];
    && if TerminalJob(job.status) then job.status != Completed
       else
         && task.status != Queued
         && (job.status == Running && Latest(w.issued, j).Some? ==>
               var lease := w.issued[Latest(w.issued, j).value];
               && task.execution != Some(lease.execution)
               && !(lease.reclaimed && task.execution == lease.previous))
  }

  // Its holder can only put the job back as it was, or end it.
  lemma HolderLeavesStranded(w: World, a: Action)
    requires Inv(w) && LeaseAction(a) && a.k < |w.issued| && Owns(w.db, w.issued[a.k], w.now)
    requires Stranded(w, w.issued[a.k].job)
    ensures Stranded(Apply(w, a), w.issued[a.k].job)
  {
    OwnedJob(w, a.k);
  }

  lemma OthersLeaveStranded(w: World, a: Action, j: nat)
    requires Inv(w) && LeaseAction(a) && a.k < |w.issued| && Owns(w.db, w.issued[a.k], w.now)
    requires Stranded(w, j) && w.issued[a.k].job != j
    ensures Stranded(Apply(w, a), j)
  {
    OwnedJob(w, a.k);
    LeaseActionKeeps(w, a);
    OthersKeepTheirSubjects(w, Apply(w, a), w.issued[a.k].job, j);
  }

  // A lease granted for it has an execution of its own, and replaces at most the one shown.
  lemma OwnClaimLeavesStranded(w: World, a: Action, j: nat)
    requires Inv(w) && a.ClaimNext? && Stranded(w, j) && Candidate(w.db.jobs, w.now) == Some(j)
    ensures Stranded(Apply(w, a), j)
  {
    assert RowOk(w, j) && SubjectOk(w, j) && HolderOk(w, j);
    CountAfterIssue(w.issued, LeaseFor(w.db, j, a.worker, a.execution), j);
  }

  lemma OtherClaimLeavesStranded(w: World, a: Action, j: nat)
    requires Inv(w) && a.ClaimNext? && Stranded(w, j) && Candidate(w.db.jobs, w.now) != Some(j)
    ensures Stranded(Apply(w, a), j)
  {
    var w', row := Apply(w, a), Candidate(w.db.jobs, w.now);
    if row.Some? {
      CountAfterIssue(w.issued, LeaseFor(w.db, row.value, a.worker, a.execution), j);
      assert w.db.jobs[row.value].jobType.Build? ==> w.db.jobs[row.value].subject != w.db.jobs[j].subject;
      assert w'.db.jobs[j] == w.db.jobs[j] && Latest(w'.issued, j) == Latest(w.issued, j);
      assert w'.db.tasks[w.db.jobs[j].subject] == w.db.tasks[w.db.jobs[j].subject];
    }
  }

  lemma EnvironmentLeavesStranded(w: World, a: Action, j: nat)
    requires Inv(w) && !LeaseAction(a) && !a.ClaimNext? && Stranded(w, j) && !TerminalJob(w.db.jobs[j].status)
    ensures Stranded(Apply(w, a), j)
  {
    if a.RequestCancel? && a.job < |w.db.jobs| && a.job != j && w.db.jobs[a.job].jobType.Build? {
      assert w.db.jobs[a.job].subject != w.db.jobs[j].subject;
    }
  }

  lemma StepLeavesStranded(w: World, a: Action, j: nat)
    requires Inv(w) && Stranded(w, j)
    ensures Stranded(Apply(w, a), j)
  {
    if TerminalJob(w.db.jobs[j].status) {
      StepKeepsTerminalJob(w, a, j);
      ApplyKeeps(w, a);
      assert SubjectOk(Apply(w, a), j);
    } else if !LeaseAction(a) {
      if a.ClaimNext? {
        if Candidate(w.db.jobs, w.now) == Some(j) {
          OwnClaimLeavesStranded(w, a, j);
        } else {
          OtherClaimLeavesStranded(w, a, j);
        }
      } else {
        EnvironmentLeavesStranded(w, a, j);
      }
    } else if a.k < |w.issued| {
      if !Owns(w.db, w.issued[a.k], w.now) {
        NonOwnerChangesNothing(w, a);
      } else if w.issued[a.k].job == j {
        HolderLeavesStranded(w, a);
      } else {
        OthersLeaveStranded(w, a, j);
      }
    }
  }

  lemma {:induction false} StrandedForGood(w: World, actions: seq<Action>, j: nat)
    requires Inv(w) && Stranded(w, j)
    ensures Stranded(Run(w, actions), j) && Inv(Run(w, actions))
    decreases |actions|
  {
    if |actions| > 0 {
      StepLeavesStranded(w, actions[0], j);
      ApplyKeeps(w, actions[0]);
      StrandedForGood(Apply(w, actions[0]), actions[1..], j);
    }
  }

  // No lease of a stranded build, whenever issued, can claim it, and an owner that tries ends it.
  lemma StrandedIsRefused(w: World, j: nat, k: nat)
    requires Inv(w) && Stranded(w, j) && k < |w.issued| && w.issued[k].job == j
    ensures LeaseTx(w, ClaimBuild(k), w.issued[k]).reply == No
    ensures Owns(w.db, w.issued[k], w.now) ==>
      var w' := Apply(w, ClaimBuild(k)); j < |w'.db.jobs| && w'.db.jobs[j].status == Failed
  {
    if Owns(w.db, w.issued[k], w.now) {
      OwnedJob(w, k);
    }
  }

  // With attempts left, the retry that leaves the task to nobody is the one that strands it.
  lemma RetryStrandsIff(w: World, k: nat, delay: nat)
    requires Inv(w) && k < |w.issued| && Owns(w.db, w.issued[k], w.now)
    requires w.issued[k].jobType.Build? && w.issued[k].attempts < w.issued[k].maxAttempts
    ensures Stranded(Apply(w, Retry(k, true, delay)), w.issued[k].job)
       <==> w.issued[k].execution !in w.claimed && w.db.tasks[w.issued[k].subject].status != Queued
  {
    OwnedJob(w, k);
  }

  // From then on, whatever anybody does, the job never completes and every claim of its build,
  // under any lease issued before or after, is turned away.
  lemma StrandedRetryIsFinal(w: World, k: nat, delay: nat, actions: seq<Action>)
    requires Inv(w) && k < |w.issued| && Owns(w.db, w.issued[k], w.now)
    requires w.issued[k].jobType.Build? && w.issued[k].attempts < w.issued[k].maxAttempts
    requires w.issued[k].execution !in w.claimed && w.db.tasks[w.issued[k].subject].status != Queued
    ensures var j := w.issued[k].job;
      var end := Run(Apply(w, Retry(k, true, delay)), actions);
      && j < |end.db.jobs| && end.db.jobs[j].status != Completed
      && (forall l :: 0 <= l < |end.issued| && end.issued[l].job == j ==>
            && LeaseTx(end, ClaimBuild(l), end.issued[l]).reply == No
            && (Owns(end.db, end.issued[l], end.now) ==> FailsBuild(end, l, j)))
  {
    var j := w.issued[k].job;
    var retried := Apply(w, Retry(k, true, delay));
    RetryStrandsIff(w, k, delay);
    ApplyKeeps(w, Retry(k, true, delay));
    StrandedForGood(retried, actions, j);
    var end := Run(retried, actions);
    forall l | 0 <= l < |end.issued| && end.issued[l].job == j
      ensures LeaseTx(end, ClaimBuild(l), end.issued[l]).reply == No
      ensures Owns(end.db, end.issued[l], end.now) ==> FailsBuild(end, l, j)
    {
      StrandedIsRefused(end, j, l);
    }
  }

  ghost predicate FailsBuild(w: World, l: nat, j: nat) {
    var w' := Apply(w, ClaimBuild(l));
    j < |w'.db.jobs| && w'.db.jobs[j].status == Failed
  }

  // A build claimed by its first worker, taken over by a second one, and retried by that one
  // before its claim.
  function RetriedTakeover(): World {
    var parsed := OneParsedFile();
    parsed.(now := 10, claimed := {102},
            db := parsed.db.(jobs := parsed.db.jobs + [Job(Build, 0, Ready, 1, 0, 15, 2, 3, None, None, None)],
                             tasks := [Task(Resolving, Some(102), false, 0, true, true)]),
            issued := parsed.issued + [Lease(1, Build, 0, 1, 102, 1, 3, false, None),
                                       Lease(1, Build, 0, 2, 103, 2, 3, true, Some(102))])
  }

  lemma RetriedTakeoverIsReached()
    ensures var claimed := Apply(Apply(Apply(OneParsedFile(), SubmitBuild(0, true, true, 1, 3)), ClaimNext(1, 102)), ClaimBuild(1));
      Apply(Apply(Apply(claimed, Tick(10)), ClaimNext(2, 103)), Retry(2, true, 5)) == RetriedTakeover()
  {
    var w1 := Apply(OneParsedFile(), SubmitBuild(0, true, true, 1, 3));
    assert w1.db.jobs == OneParsedFile().db.jobs + [Job(Build, 0, Ready, 1, 0, 0, 0, 3, None, None, None)];
    FirstOfTwo(w1.db.jobs, 0);
    var w2 := Apply(w1, ClaimNext(1, 102));
    assert w2.issued == OneParsedFile().issued + [Lease(1, Build, 0, 1, 102, 1, 3, false, None)];
    var w3 := Apply(w2, ClaimBuild(1));
    assert w3.db.tasks == [Task(Resolving, Some(102), false, 0, true, true)] && w3.claimed == {102};
    var w4 := Apply(w3, Tick(10));
    assert w4.db.jobs == OneParsedFile().db.jobs + [Job(Build, 0, Running, 1, 0, 0, 1, 3, Some(1), Some(102), Some(10))];
    FirstOfTwo(w4.db.jobs, 10);
    var w5 := Apply(w4, ClaimNext(2, 103));
    assert w5.issued == RetriedTakeover().issued;
    assert w5.db.jobs == OneParsedFile().db.jobs + [Job(Build, 0, Running, 1, 0, 0, 2, 3, Some(2), Some(103), Some(20))];
    var w6 := Apply(w5, Retry(2, true, 5));
    assert w6.db.jobs == RetriedTakeover().db.jobs;
  }

  lemma RetriedTakeoverIsStranded()
    ensures Stranded(RetriedTakeover(), 1)
    ensures RetriedTakeover().db.jobs[1].attempts < RetriedTakeover().db.jobs[1].maxAttempts
  {
  }
}
