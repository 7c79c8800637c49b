/**
  Consequences of the lease invariant: what a reader of the job and task tables may rely on, and
  what a worker may rely on while it holds a lease.
 */
module LeaseTheorems {
  import opened Options
  import opened Leases
  import opened LeaseInvariants
  import opened LeaseRuns

  lemma InitKept(now: nat, leaseSeconds: nat, actions: seq<Action>)
    requires leaseSeconds > 0
    ensures Inv(Run(Init(now, leaseSeconds), actions))
  {
    RunKeeps(Init(now, leaseSeconds), actions);
  }

  // In every reachable state a build's job, task and artifact rows tell one story.
  lemma BuildRowsAgree(now: nat, leaseSeconds: nat, actions: seq<Action>, j: nat)
    requires leaseSeconds > 0
    requires var db := Run(Init(now, leaseSeconds), actions).db;
      j < |db.jobs| && db.jobs[j].jobType.Build?
    ensures var db := Run(Init(now, leaseSeconds), actions).db;
      && db.jobs[j].subject < |db.tasks|
      && var status := db.jobs[j].status;
      && var task := db.tasks[db.jobs[j].subject];
      && var rows := ArtifactCount(db.artifacts, db.jobs[j].subject);
      && (status == Completed <==> task.status == Success || task.status == PartialSuccess)
      && (status == Completed <==> rows == 1)
      && (status != Completed <==> rows == 0)
      && (status == Failed <==> task.status == TaskFailed)
      && (status == Cancelled <==> task.status == TaskCancelled)
      && (status == Ready || status == Running <==> !TerminalTask(task.status))
  {
    InitKept(now, leaseSeconds, actions);
    assert SubjectOk(Run(Init(now, leaseSeconds), actions), j);
  }

  // Attempts count the leases handed out; they stay within the limit, and a READY job has one left.
  lemma AttemptsCountLeases(now: nat, leaseSeconds: nat, actions: seq<Action>, j: nat)
    requires leaseSeconds > 0
    requires j < |Run(Init(now, leaseSeconds), actions).db.jobs|
    ensures var w := Run(Init(now, leaseSeconds), actions);
      && w.db.jobs[j].attempts == LeaseCount(w.issued, j) <= w.db.jobs[j].maxAttempts
      && (w.db.jobs[j].status == Ready ==> w.db.jobs[j].attempts < w.db.jobs[j].maxAttempts)
  {
    InitKept(now, leaseSeconds, actions);
    assert RowOk(Run(Init(now, leaseSeconds), actions), j);
  }

  // ---------------------------------------------------------------- stability

  lemma StepKeepsIdentity(w: World, a: Action, j: nat)
    requires Inv(w) && j < |w.db.jobs|
    ensures var w' := Apply(w, a);
      && j < |w'.db.jobs| && w'.db.jobs[j].jobType == w.db.jobs[j].jobType
      && w'.db.jobs[j].subject == w.db.jobs[j].subject
  {
    if LeaseAction(a) && a.k < |w.issued| {
      LeaseActionKeeps(w, a);
    }
  }

  lemma StepKeepsTerminalJob(w: World, a: Action, j: nat)
    requires Inv(w) && j < |w.db.jobs| && TerminalJob(w.db.jobs[j].status)
    ensures j < |Apply(w, a).db.jobs| && Apply(w, a).db.jobs[j] == w.db.jobs[j]
  {
    if LeaseAction(a) && a.k < |w.issued| {
      if !Owns(w.db, w.issued[a.k], w.now) {
        NonOwnerChangesNothing(w, a);
      } else {
        LeaseActionKeeps(w, a);
      }
    } else if a.RequestCancel? && a.job == j {
      assert SubjectOk(w, j);
    }
  }

  // A job that reached a terminal status keeps that whole row for ever.
  lemma {:induction false} TerminalJobsStay(w: World, actions: seq<Action>, j: nat)
    requires Inv(w) && j < |w.db.jobs| && TerminalJob(w.db.jobs[j].status)
    ensures j < |Run(w, actions).db.jobs| && Run(w, actions).db.jobs[j] == w.db.jobs[j]
    decreases |actions|
  {
    if |actions| > 0 {
      StepKeepsTerminalJob(w, actions[0], j);
      ApplyKeeps(w, actions[0]);
      TerminalJobsStay(Apply(w, actions[0]), actions[1..], j);
    }
  }

  lemma ClaimKeepsTerminalTask(w: World, a: Action, j: nat)
    requires Inv(w) && j < |w.db.jobs| && w.db.jobs[j].jobType.Build? && a.ClaimNext?
    requires TerminalTask(w.db.tasks[w.db.jobs[j].subject].status)
    ensures Apply(w, a).db.tasks == w.db.tasks
         || (|Apply(w, a).db.tasks| == |w.db.tasks|
             && Apply(w, a).db.tasks[w.db.jobs[j].subject] == w.db.tasks[w.db.jobs[j].subject])
  {
    assert SubjectOk(w, j);
  }

  lemma StepKeepsTerminalTask(w: World, a: Action, j: nat)
    requires Inv(w) && j < |w.db.jobs| && w.db.jobs[j].jobType.Build?
    requires TerminalTask(w.db.tasks[w.db.jobs[j].subject].status)
    ensures var t := w.db.jobs[j].subject;
      && t < |Apply(w, a).db.tasks| && Apply(w, a).db.tasks[t].status == w.db.tasks[t].status
  {
    assert RowOk(w, j) && SubjectOk(w, j);
    if !LeaseAction(a) {
      if a.ClaimNext? {
        ClaimKeepsTerminalTask(w, a, j);
      }
    } else if a.k < |w.issued| {
      if !Owns(w.db, w.issued[a.k], w.now) {
        NonOwnerChangesNothing(w, a);
      } else {
        HolderKeepsTerminalTask(w, a, j);
      }
    }
  }

  // Its job has ended, so whoever owns a job owns another one.
  lemma HolderKeepsTerminalTask(w: World, a: Action, j: nat)
    requires Inv(w) && j < |w.db.jobs| && w.db.jobs[j].jobType.Build?
    requires TerminalTask(w.db.tasks[w.db.jobs[j].subject].status)
    requires LeaseAction(a) && a.k < |w.issued| && Owns(w.db, w.issued[a.k], w.now)
    ensures |Apply(w, a).db.tasks| == |w.db.tasks|
    ensures Apply(w, a).db.tasks[w.db.jobs[j].subject] == w.db.tasks[w.db.jobs[j].subject]
  {
    assert SubjectOk(w, j);
    OwnedJob(w, a.k);
    LeaseActionKeeps(w, a);
    OthersKeepTheirSubjects(w, Apply(w, a), w.issued[a.k].job, j);
  }

  // Nor does the task of a build ever leave a terminal status, whatever late holders attempt.
  lemma {:induction false} TerminalTasksStay(w: World, actions: seq<Action>, j: nat)
    requires Inv(w) && j < |w.db.jobs| && w.db.jobs[j].jobType.Build?
    requires TerminalTask(w.db.tasks[w.db.jobs[j].subject].status)
    ensures var t := w.db.jobs[j].subject;
      && t < |Run(w, actions).db.tasks|
      && Run(w, actions).db.tasks[t].status == w.db.tasks[t].status
    decreases |actions|
  {
    if |actions| > 0 {
      var next := Apply(w, actions[0]);
      StepKeepsTerminalTask(w, actions[0], j);
      StepKeepsIdentity(w, actions[0], j);
      ApplyKeeps(w, actions[0]);
      TerminalTasksStay(next, actions[1..], j);
    }
  }

  lemma ClaimKeepsLost(w: World, a: Action, k: nat)
    requires Inv(w) && k < |w.issued| && !Owns(w.db, w.issued[k], w.now) && a.ClaimNext?
    ensures k < |Apply(w, a).issued| && Apply(w, a).issued[k] == w.issued[k]
    ensures !Owns(Apply(w, a).db, w.issued[k], Apply(w, a).now)
  {
  }

  lemma StepKeepsLost(w: World, a: Action, k: nat)
    requires Inv(w) && k < |w.issued| && !Owns(w.db, w.issued[k], w.now)
    ensures k < |Apply(w, a).issued| && Apply(w, a).issued[k] == w.issued[k]
    ensures !Owns(Apply(w, a).db, w.issued[k], Apply(w, a).now)
  {
    var lease := w.issued[k];
    if LeaseAction(a) && a.k < |w.issued| {
      if !Owns(w.db, w.issued[a.k], w.now) {
        NonOwnerChangesNothing(w, a);
      } else {
        OwnedJob(w, a.k);
        LeaseActionKeeps(w, a);
        if w.issued[a.k].job == lease.job {
          assert a.k != k;
          assert w.issued[a.k].execution != lease.execution;
        }
      }
    } else if a.ClaimNext? {
      ClaimKeepsLost(w, a, k);
    }
  }

  // A lease that was superseded or ran out never owns its job again: there is no revival.
  lemma {:induction false} LostForever(w: World, actions: seq<Action>, k: nat)
    requires Inv(w) && k < |w.issued| && !Owns(w.db, w.issued[k], w.now)
    ensures k < |Run(w, actions).issued| && Run(w, actions).issued[k] == w.issued[k]
    ensures !Owns(Run(w, actions).db, w.issued[k], Run(w, actions).now)
    decreases |actions|
  {
    if |actions| > 0 {
      StepKeepsLost(w, actions[0], k);
      ApplyKeeps(w, actions[0]);
      LostForever(Apply(w, actions[0]), actions[1..], k);
    }
  }

  // ---------------------------------------------------------------- a live worker is never robbed

  predicate ActsUnder(a: Action, k: nat) { LeaseAction(a) && a.k == k }

  ghost predicate ByOthers(actions: seq<Action>, k: nat) { forall a :: a in actions ==> !ActsUnder(a, k) }

  // The job row is as it was, and its subject still shows the same holder and progress.
  ghost predicate Undisturbed(w: World, w': World, k: nat)
    requires k < |w.issued|
  {
    var lease := w.issued[k];
    && k < |w'.issued| && w'.issued[k] == lease
    && lease.job < |w.db.jobs| && lease.job < |w'.db.jobs| && w'.db.jobs[lease.job] == w.db.jobs[lease.job]
    && (lease.jobType.Build? ==>
          && lease.subject < |w.db.tasks| && lease.subject < |w'.db.tasks|
          && w'.db.tasks[lease.subject].execution == w.db.tasks[lease.subject].execution
          && w'.db.tasks[lease.subject].status == w.db.tasks[lease.subject].status)
    && (lease.jobType.Parse? ==>
          lease.subject < |w.db.files| && lease.subject < |w'.db.files|
          && w'.db.files[lease.subject] == w.db.files[lease.subject])
  }

  lemma OthersLeaveTheOwner(w: World, a: Action, k: nat)
    requires Inv(w) && k < |w.issued| && Owns(w.db, w.issued[k], w.now) && !ActsUnder(a, k)
    ensures Undisturbed(w, Apply(w, a), k)
  {
    OwnedJob(w, k);
    if !LeaseAction(a) {
      if a.ClaimNext? {
        ClaimLeavesTheOwner(w, a, k);
      } else {
        EnvironmentLeavesTheOwner(w, a, k);
      }
    } else if a.k < |w.issued| {
      if !Owns(w.db, w.issued[a.k], w.now) {
        NonOwnerChangesNothing(w, a);
      } else {
        HoldersLeaveTheOwner(w, a, k);
      }
    }
  }

  lemma HoldersLeaveTheOwner(w: World, a: Action, k: nat)
    requires Inv(w) && k < |w.issued| && Owns(w.db, w.issued[k], w.now)
    requires LeaseAction(a) && a.k < |w.issued| && a.k != k && Owns(w.db, w.issued[a.k], w.now)
    ensures Undisturbed(w, Apply(w, a), k)
  {
    OwnedJob(w, k);
    OwnedJob(w, a.k);
    assert w.issued[a.k].job != w.issued[k].job;
    LeaseActionKeeps(w, a);
    OthersKeepTheirSubjects(w, Apply(w, a), w.issued[a.k].job, w.issued[k].job);
  }

  lemma EnvironmentLeavesTheOwner(w: World, a: Action, k: nat)
    requires Inv(w) && k < |w.issued| && Owns(w.db, w.issued[k], w.now) && !LeaseAction(a) && !a.ClaimNext?
    ensures Undisturbed(w, Apply(w, a), k)
  {
    OwnedJob(w, k);
  }

  lemma OthersKeepTheirSubjects(w: World, w': World, i: nat, j: nat)
    requires Inv(w) && i < |w.db.jobs| && j < |w.db.jobs| && i != j && OnlyJob(w, w', i)
    ensures w'.db.jobs[j] == w.db.jobs[j]
    ensures w.db.jobs[j].jobType.Build? ==>
      w.db.jobs[j].subject < |w.db.tasks| && w'.db.tasks[w.db.jobs[j].subject] == w.db.tasks[w.db.jobs[j].subject]
    ensures w.db.jobs[j].jobType.Parse? ==>
      w.db.jobs[j].subject < |w.db.files| && w'.db.files[w.db.jobs[j].subject] == w.db.files[w.db.jobs[j].subject]
  {
    assert SubjectOk(w, j);
  }

  lemma ClaimLeavesTheOwner(w: World, a: Action, k: nat)
    requires Inv(w) && k < |w.issued| && Owns(w.db, w.issued[k], w.now) && a.ClaimNext?
    ensures Undisturbed(w, Apply(w, a), k)
  {
    OwnedJob(w, k);
    var j := w.issued[k].job;
    var row := Candidate(w.db.jobs, w.now);
    if row.Some? {
      assert row.value != j;
      if w.db.jobs[row.value].jobType == w.db.jobs[j].jobType {
        assert w.db.jobs[row.value].subject != w.db.jobs[j].subject;
      }
    }
  }

  lemma {:induction false} ClockOnlyAdvances(w: World, actions: seq<Action>)
    ensures w.now <= Run(w, actions).now
    decreases |actions|
  {
    if |actions| > 0 {
      ClockOnlyAdvances(Apply(w, actions[0]), actions[1..]);
    }
  }

  // Until its lease runs out, nothing that others do takes the job from its owner: not claims, not
  // late holders, not cancel requests.
  lemma {:induction false} OwnerKeepsTheJob(w: World, actions: seq<Action>, k: nat)
    requires Inv(w) && k < |w.issued| && Owns(w.db, w.issued[k], w.now) && ByOthers(actions, k)
    requires Run(w, actions).now < w.db.jobs[w.issued[k].job].expires.value
    ensures Undisturbed(w, Run(w, actions), k) && Owns(Run(w, actions).db, w.issued[k], Run(w, actions).now)
    decreases |actions|
  {
    if |actions| == 0 {
      OwnedJob(w, k);
    } else {
      var next := Apply(w, actions[0]);
      assert actions[0] in actions;
      OthersLeaveTheOwner(w, actions[0], k);
      ApplyKeeps(w, actions[0]);
      ClockOnlyAdvances(next, actions[1..]);
      assert forall a :: a in actions[1..] ==> a in actions;
      OwnerKeepsTheJob(next, actions[1..], k);
    }
  }

  lemma HeartbeatRenews(w: World, k: nat)
    requires Inv(w) && k < |w.issued| && Owns(w.db, w.issued[k], w.now)
    ensures var renewed := Apply(w, Heartbeat(k));
      var j := w.issued[k].job;
      && renewed.issued == w.issued && renewed.now == w.now && renewed.db.tasks == w.db.tasks
      && j < |w.db.jobs|
      && renewed.db.jobs == w.db.jobs[j := w.db.jobs[j].(expires := Some(w.now + w.leaseSeconds))]
  {
  }

  // A worker that renews its lease owns its job for the whole of the next lease period.
  lemma RenewalIsHonoured(w: World, actions: seq<Action>, k: nat)
    requires Inv(w) && k < |w.issued| && Owns(w.db, w.issued[k], w.now) && ByOthers(actions, k)
    requires Run(Apply(w, Heartbeat(k)), actions).now < w.now + w.leaseSeconds
    ensures var end := Run(Apply(w, Heartbeat(k)), actions);
      && Undisturbed(Apply(w, Heartbeat(k)), end, k)
      && Owns(end.db, w.issued[k], end.now)
  {
    var renewed := Apply(w, Heartbeat(k));
    HeartbeatRenews(w, k);
    ApplyKeeps(w, Heartbeat(k));
    ClockOnlyAdvances(renewed, actions);
    OwnerKeepsTheJob(renewed, actions, k);
  }

  // The owner of a claimed build completes its job by publishing exactly when its cancellation
  // was not requested and neither the artifact's id nor its key is taken.
  lemma PublishCompletesIff(w: World, k: nat, id: Id, status: TaskStatus)
    requires Inv(w) && k < |w.issued| && Owns(w.db, w.issued[k], w.now)
    requires w.issued[k].jobType.Build? && HoldsTask(w.db, w.issued[k])
    requires status == Success || status == PartialSuccess
    ensures var lease := w.issued[k];
      var after := Apply(w, Publish(k, id, status)).db;
      && lease.job < |after.jobs| && lease.subject < |after.tasks|
      && (after.jobs[lease.job].status == Completed
          <==> !w.db.tasks[lease.subject].cancelRequested
               && !exists a :: a in w.db.artifacts && (a.id == id || a.key == KeyOf(lease, id)))
      && (after.jobs[lease.job].status == Completed ==>
            after.tasks[lease.subject].status == status
            && Artifact(id, lease.subject, KeyOf(lease, id), false) in after.artifacts)
  {
    OwnedJob(w, k);
  }

  // ---------------------------------------------------------------- which row is claimed

  lemma {:induction false} BestReadyIsFirst(jobs: seq<Job>, now: nat, n: nat)
    requires n <= |jobs|
    ensures BestReady(jobs, now, n).None? ==> forall i :: 0 <= i < n ==> !ClaimableReady(jobs[i], now)
    ensures BestReady(jobs, now, n).Some? ==>
      var b := BestReady(jobs, now, n).value;
      forall i :: 0 <= i < n && ClaimableReady(jobs[i], now) ==>
        !ReadyBefore(jobs[i], jobs[b]) && (i < b ==> ReadyBefore(jobs[b], jobs[i]))
  {
    if n > 0 {
      BestReadyIsFirst(jobs, now, n - 1);
    }
  }

  lemma {:induction false} BestExpiredIsFirst(jobs: seq<Job>, now: nat, n: nat)
    requires n <= |jobs|
    ensures BestExpired(jobs, now, n).None? ==> forall i :: 0 <= i < n ==> !ClaimableExpired(jobs[i], now)
    ensures BestExpired(jobs, now, n).Some? ==>
      var b := BestExpired(jobs, now, n).value;
      forall i :: 0 <= i < n && ClaimableExpired(jobs[i], now) ==>
        jobs[b].expires.value <= jobs[i].expires.value
        && (i < b ==> jobs[b].expires.value < jobs[i].expires.value)
  {
    if n > 0 {
      BestExpiredIsFirst(jobs, now, n - 1);
    }
  }

  // claim_next finds nothing exactly when no row is claimable, and takes an expired lease over
  // only when no READY row is due.
  lemma CandidateIff(jobs: seq<Job>, now: nat)
    ensures Candidate(jobs, now).None? <==>
      forall i :: 0 <= i < |jobs| ==> !ClaimableReady(jobs[i], now) && !ClaimableExpired(jobs[i], now)
    ensures Candidate(jobs, now).Some? && jobs[Candidate(jobs, now).value].status == Running ==>
      forall i :: 0 <= i < |jobs| ==> !ClaimableReady(jobs[i], now)
  {
    BestReadyIsFirst(jobs, now, |jobs|);
    BestExpiredIsFirst(jobs, now, |jobs|);
  }
}
