/** Transactions of block jobs: they complete together (qemu/blockjob.c). */
module BlockJobTransactions {
  import opened BlockJobs

  /** How a transaction ended.  In a split one the finalizer committed and all others aborted. */
  datatype Outcome = Open | AllAborted | AllCommitted | Split

  ghost predicate Distinct(s: seq<BlockJob>) {
    forall a, b | 0 <= a < b < |s| :: s[a] != s[b]
  }

  /** Jobs of a list that are ready for block_job_completed_txn_abort on behalf of job. */
  ghost predicate Abortable(list: seq<BlockJob>, job: BlockJob)
    reads list
  {
    && job in list && (job.cancelled || (job.completed && (job.ret == 0 ==> job.status.Pending?)))
    && forall j | j in list :: j.Valid() && j.inTxn && (j.completed || j.started)
  }

  /** j is ready to be finalized once it has completed. */
  ghost predicate Doomed(j: BlockJob, job: BlockJob)
    reads j
  {
    && j.Valid() && j.inTxn && (j.completed || j.started)
    && (j.cancelled || (j == job && j.completed && (j.ret == 0 ==> j.status.Pending?)))
  }

  /** The job was left by the transaction's end as abort leaves it, or commit. */
  ghost predicate Ended(j: BlockJob, commit: bool)
    reads j
  {
    j.Valid() && j.Over() && if commit then j.Committed() else j.Aborted()
  }

  /** A job of a transaction that is still open. */
  ghost predicate OpenJob(j: BlockJob)
    reads j
  {
    j.Valid() && j.inTxn && j.ret == 0 && j.calls == [] && !j.status.Aborting?
    && (j.completed || j.status.Created? ==> !j.cancelled)
  }

  /** A job that failed before it was started and left the transaction. */
  ghost predicate Withdrawn(j: BlockJob)
    reads j
  {
    j.status.Null? && j.calls == []
  }

  /** The first job of the list whose prepare callback fails is number f; f is the length if none fails. */
  ghost predicate FirstFailure(list: seq<BlockJob>, f: nat) {
    && f <= |list|
    && (forall k | 0 <= k < f :: list[k].prepareResult == 0)
    && (f < |list| ==> list[f].prepareResult != 0)
  }

  /** What a finalization decides, given the first failing prepare and the finalizing job. */
  ghost function Verdict(list: seq<BlockJob>, f: nat, job: BlockJob): Outcome {
    if f >= |list| then AllCommitted else if list[f] == job then AllAborted else Split
  }

  /** The pauses without an owner are as they were. */
  twostate predicate PausesKept(list: seq<BlockJob>)
    reads list
  {
    forall j | j in list :: j.unowned == old(j.unowned)
  }

  /** All jobs of a list have completed. */
  ghost predicate AllDone(list: seq<BlockJob>)
    reads list
  {
    forall j | j in list :: j.completed
  }

  ghost predicate AllDoneBut(list: seq<BlockJob>, job: BlockJob)
    reads list
  {
    forall j | j in list && j != job :: j.completed
  }

  /** Some job of a list must be finalized manually. */
  ghost predicate SomeManual(list: seq<BlockJob>) {
    exists j :: j in list && !j.autoFinalize
  }

  /** What a driver, the block layer or the monitor can do to a job. */
  datatype Op =
    | Start | PausePoint | Enter | EventReady | ErrorStop(noSpace: bool) | UserPause | UserResume
    | DrainedBegin | DrainedEnd | DeferToMainLoop | Completed(ret: int)
    | CancelJob(force: bool) | UserCancel(force: bool) | FinalizeJob | DismissJob | EarlyFail
  {
    /** Whether it can complete, finalize or dismiss a job. */
    predicate CanEnd() {
      Completed? || CancelJob? || UserCancel? || FinalizeJob? || DismissJob? || EarlyFail?
    }
  }

  /** A job is created in the transaction, or something is done to member n. */
  datatype Event =
    | Create(autoFinalize: bool, autoDismiss: bool, prepareResult: int, finishResult: int)
    | Do(n: nat, op: Op)

  ghost predicate NoErrorStop(events: seq<Event>) {
    forall i | 0 <= i < |events| :: events[i].Do? ==> !events[i].op.ErrorStop?
  }

  ghost predicate NoEarlyFail(events: seq<Event>) {
    forall i | 0 <= i < |events| :: events[i].Do? ==> !events[i].op.EarlyFail?
  }

  /** jobs holds the list, newest first; members all jobs that were ever on it. */
  class BlockJobTxn {
    var aborting: bool
    var jobs: seq<BlockJob>
    var members: seq<BlockJob>
    ghost var pending: bool
    ghost var outcome: Outcome
    ghost var finalizer: BlockJob?

    constructor ()
      ensures Valid() && outcome.Open? && !pending && jobs == [] && members == []
    {
      aborting, jobs, members, pending, outcome, finalizer := false, [], [], false, Open, null;
    }

    /** Either every job waits for finalization, or none does. */
    ghost predicate Phase()
      reads this, jobs
    {
      if pending then jobs != [] && forall j | j in jobs :: j.status.Pending?
      else forall j | j in jobs :: !j.status.Pending?
    }

    /** Unless the jobs wait for finalization, there is one whose completion will take them there. */
    ghost predicate Progress()
      reads this, jobs
    {
      outcome.Open? && !pending && jobs != [] ==> exists j :: j in jobs && !j.completed
    }

    /** What shows that the transaction has ended. */
    ghost predicate Closed()
      reads this, members
    {
      if outcome.AllCommitted? then exists m :: m in members && m.Committed() else aborting
    }

    /** What the end of the transaction left of a member. */
    ghost predicate Settled(m: BlockJob)
      reads this, m
    {
      || Withdrawn(m)
      || match outcome
         case Open => false
         case AllAborted => Ended(m, false)
         case AllCommitted => Ended(m, true) && m.calls == [DriverPrepare, DriverCommit, DriverClean]
         case Split => Ended(m, m == finalizer)
    }

    /** The list holds the members that have not withdrawn. */
    ghost predicate Listed()
      reads this, members, jobs
    {
      && Distinct(jobs) && (forall j | j in jobs :: j in members && j.Valid() && j.inTxn)
      && (forall m | m in members && m !in jobs :: m.Valid() && !m.inTxn && Withdrawn(m))
    }

    ghost predicate Valid()
      reads this, members, jobs
    {
      if outcome.Open? then !aborting && Listed() && Phase() && forall j | j in jobs :: OpenJob(j)
      else jobs == [] && Closed() && forall m | m in members :: m.Valid() && !m.inTxn && Settled(m)
    }

    /** A member has failed or has been cancelled. */
    ghost predicate Failed()
      reads this, members, jobs
    {
      outcome.AllAborted? || (outcome.Open? && exists j :: j in jobs && j.cancelled)
    }

    /** Every operation keeps this: an ended transaction stays as it ended, and one that has failed can only abort. */
    twostate predicate Faithful()
      reads this, members, jobs
    {
      && (forall m | m in old(members) :: m in members)
      && (!old(outcome).Open? ==> outcome == old(outcome))
      && (old(Failed()) ==> Failed())
    }

    /** No other member would keep block_job_finish_sync waiting for ever. */
    predicate OthersStarted(job: BlockJob)
      reads this, jobs
    {
      forall j | j in jobs && j != job :: j.completed || j.started
    }

    /** Jobs join before the transaction has ended or waits for its end. */
    predicate CanAdd()
      reads this, members, jobs
    {
      && !aborting && (forall j | j in jobs :: !j.status.Pending?)
      && forall m | m in members :: !m.Committed()
    }

    lemma CanAddIs()
      requires Valid()
      ensures CanAdd() <==> outcome.Open? && !pending
    {
      assert outcome.Open? && pending ==> jobs[0] in jobs;
    }

    /** block_job_txn_add_job */
    method AddJob(job: BlockJob)
      requires Valid() && outcome.Open? && !pending && job !in members && OpenJob(job) && job.status.Created?
      modifies this
      ensures Valid() && outcome.Open? && !pending && jobs == [job] + old(jobs) && members == [job] + old(members)
      ensures Progress()
    {
      jobs := [job] + jobs;
      members := [job] + members;
    }

    /** The loop that cancels the other jobs. */
    method CancelOthers(job: BlockJob)
      requires Distinct(jobs) && Abortable(jobs, job)
      modifies jobs
      ensures forall j | j in jobs :: Doomed(j, job)
      ensures PausesKept(jobs)
      ensures job.ret == old(job.ret) && job.cancelled == old(job.cancelled)
    {
      var i := 0;
      while i < |jobs|
        invariant 0 <= i <= |jobs|
        invariant forall k | 0 <= k < i :: Doomed(jobs[k], job) && jobs[k].unowned == old(jobs[k].unowned)
        invariant forall k | i <= k < |jobs| :: unchanged(jobs[k])
        invariant unchanged(job)
      {
        if jobs[i] != job {
          jobs[i].CancelAsync(false);
        }
        i := i + 1;
      }
    }

    /** A job is completed, if it has not been, and finalized. */
    method FinishJob(other: BlockJob, ghost job: BlockJob)
      requires Doomed(other, job)
      modifies other
      ensures Ended(other, other == job && old(job.ret) == 0 && !old(job.cancelled))
      ensures other.unowned == old(other.unowned)
    {
      if !other.completed {
        other.FinishSync();
      }
      other.FinalizeSingle();
    }

    /** The loop that waits for the jobs to complete and finalizes them. */
    method FinalizeAll(job: BlockJob)
      requires Distinct(jobs) && job in jobs && forall j | j in jobs :: Doomed(j, job)
      modifies `jobs, jobs
      ensures jobs == [] && PausesKept(old(jobs))
      ensures forall j | j in old(jobs) :: Ended(j, j == job && old(job.ret) == 0 && !old(job.cancelled))
    {
      ghost var list := jobs;
      ghost var commit := job.ret == 0 && !job.cancelled;
      ghost var n := 0;
      while jobs != []
        invariant 0 <= n <= |list| && jobs == list[n..]
        invariant forall k | 0 <= k < n ::
                    Ended(list[k], list[k] == job && commit) && list[k].unowned == old(list[k].unowned)
        invariant forall k | n <= k < |list| :: unchanged(list[k])
        decreases |jobs|
      {
        FinishJob(jobs[0], job);
        jobs := jobs[1..];
        n := n + 1;
      }
    }

    /** block_job_completed_txn_abort, the first time. */
    method CompletedTxnAbort(job: BlockJob)
      requires !aborting && Distinct(jobs) && Abortable(jobs, job)
      modifies `aborting, `jobs, jobs
      ensures aborting && jobs == [] && PausesKept(old(jobs))
      ensures forall j | j in old(jobs) :: Ended(j, j == job && old(job.ret) == 0 && !old(job.cancelled))
    {
      aborting := true;
      CancelOthers(job);
      FinalizeAll(job);
    }

    /** block_job_txn_apply with block_job_prepare; f is where it stopped. */
    method PrepareAll() returns (rc: int, ghost f: nat)
      requires Distinct(jobs) && forall j | j in jobs :: OpenJob(j) && j.status.Pending?
      modifies jobs`ret, jobs`calls
      ensures FirstFailure(jobs, f) && (rc == 0 <==> f == |jobs|)
      ensures forall j | j in jobs :: j.Valid() && j.inTxn && j.status.Pending? && !j.cancelled
      ensures forall k | 0 <= k < f :: jobs[k].ret == 0 && jobs[k].calls == [DriverPrepare]
      ensures forall k | f < k < |jobs| :: jobs[k].ret == 0 && jobs[k].calls == []
      ensures f < |jobs| ==> jobs[f].ret != 0
    {
      var i := 0;
      rc := 0;
      while i < |jobs|
        invariant 0 <= i <= |jobs|
        invariant forall k | 0 <= k < i :: jobs[k].prepareResult == 0
        invariant forall k | 0 <= k < i ::
                    jobs[k].Valid() && jobs[k].inTxn && jobs[k].status.Pending? && !jobs[k].cancelled
        invariant forall k | 0 <= k < i :: jobs[k].ret == 0 && jobs[k].calls == [DriverPrepare]
        invariant forall k | i <= k < |jobs| :: OpenJob(jobs[k]) && jobs[k].status.Pending?
      {
        rc := jobs[i].Prepare();
        if rc != 0 {
          return rc, i;
        }
        i := i + 1;
      }
      f := i;
    }

    /** block_job_txn_apply with block_job_finalize_single. */
    method CommitAll()
      requires Distinct(jobs)
      requires forall j | j in jobs ::
                 j.Valid() && j.inTxn && j.status.Pending? && !j.cancelled && j.ret == 0 && j.calls == [DriverPrepare]
      modifies `jobs, jobs
      ensures jobs == [] && PausesKept(old(jobs))
      ensures forall j | j in old(jobs) :: Ended(j, true) && j.calls == [DriverPrepare, DriverCommit, DriverClean]
    {
      ghost var list := jobs;
      ghost var n := 0;
      while jobs != []
        invariant 0 <= n <= |list| && jobs == list[n..]
        invariant forall k | 0 <= k < n ::
                    Ended(list[k], true) && list[k].calls == [DriverPrepare, DriverCommit, DriverClean]
        invariant forall k | 0 <= k < n :: list[k].unowned == old(list[k].unowned)
        invariant forall k | n <= k < |list| :: unchanged(list[k])
        decreases |jobs|
      {
        jobs[0].FinalizeSingle();
        jobs := jobs[1..];
        n := n + 1;
      }
    }

    /**
      block_job_do_finalize.  All commit if every prepare succeeds.  If one fails,
      all abort when it is that of the finalizing job, and otherwise the finalizing
      job commits while the others abort.
     */
    method DoFinalize(job: BlockJob) returns (ghost f: nat)
      requires !aborting && Distinct(jobs) && job in jobs && forall j | j in jobs :: OpenJob(j) && j.status.Pending?
      modifies `aborting, `jobs, jobs
      ensures FirstFailure(old(jobs), f) && jobs == [] && PausesKept(old(jobs)) && (aborting <==> f < |old(jobs)|)
      ensures forall j | j in old(jobs) :: Ended(j, f == |old(jobs)| || (j == job && old(jobs)[f] != job))
      ensures f == |old(jobs)| ==> forall j | j in old(jobs) :: j.calls == [DriverPrepare, DriverCommit, DriverClean]
    {
      var rc;
      rc, f := PrepareAll();
      if rc != 0 {
        CompletedTxnAbort(job);
      } else {
        CommitAll();
      }
    }

    /** A step of one job that completes nothing keeps the transaction. */
    twostate lemma StepKeeps(job: BlockJob)
      requires old(Valid()) && job in old(members) && unchanged(this) && job.Valid() && job.Kept()
      requires forall m | m in members && m != job :: unchanged(m)
      ensures Valid() && Faithful() && (old(Progress()) ==> Progress())
    {
      if outcome.Open? {
        forall j | j in jobs
          ensures j.cancelled == old(j.cancelled) && OpenJob(j) && j.status.Pending? == old(j.status.Pending?)
          ensures j.completed == old(j.completed)
        {
          assert j in members && old(OpenJob(j));
        }
        forall m | m in members && m !in jobs
          ensures m.Valid() && !m.inTxn && Withdrawn(m)
        {
          assert old(Withdrawn(m)) && old(m.Valid());
        }
      } else {
        forall m | m in members
          ensures m.Valid() && !m.inTxn && Settled(m)
        {
          assert old(Settled(m)) && old(m.Valid());
        }
      }
    }

    /** The members when the list has been emptied. */
    twostate lemma Emptied()
      requires old(Listed()) && members == old(members) && !outcome.Open? && jobs == [] && old(jobs) != []
      requires !outcome.AllCommitted? ==> aborting
      requires forall j | j in old(jobs) :: j.Valid() && j.Over() && Settled(j) && j.calls != []
      requires forall m | m in members && m !in old(jobs) :: unchanged(m)
      ensures Valid()
    {
      assert old(jobs)[0] in old(jobs) && old(jobs)[0] in members;
      forall m | m in members
        ensures m.Valid() && !m.inTxn && Settled(m)
      {
        if m !in old(jobs) {
          assert old(Withdrawn(m)) && old(m.Valid());
        }
      }
    }

    /** A member has failed or has been cancelled: the transaction ends, and all members abort. */
    method EndAborted(job: BlockJob)
      requires Listed() && outcome.Open? && !aborting && Abortable(jobs, job) && (job.ret != 0 || job.cancelled)
      modifies this, jobs
      ensures Valid() && outcome.AllAborted? && members == old(members) && PausesKept(members)
    {
      CompletedTxnAbort(job);
      outcome := AllAborted;
      Emptied();
    }

    /** The transaction is finalized by job. */
    method EndFinalized(job: BlockJob) returns (ghost f: nat)
      requires Valid() && outcome.Open? && pending && job in jobs
      modifies this, jobs
      ensures Valid() && members == old(members) && PausesKept(members)
      ensures FirstFailure(old(jobs), f) && outcome == Verdict(old(jobs), f, job)
      ensures forall j | j in old(jobs) :: Ended(j, outcome.AllCommitted? || (outcome.Split? && j == job))
    {
      ghost var list := jobs;
      f := DoFinalize(job);
      outcome := Verdict(list, f, job);
      finalizer := job;
      Emptied();
    }

    /** The scan of block_job_completed_txn_success for jobs that are still running. */
    method AllCompleted() returns (all: bool)
      ensures all <==> AllDone(jobs)
    {
      var i := 0;
      while i < |jobs|
        invariant 0 <= i <= |jobs| && forall k | 0 <= k < i :: jobs[k].completed
      {
        if !jobs[i].completed {
          return false;
        }
        i := i + 1;
      }
      return true;
    }

    /** block_job_txn_apply with block_job_event_pending. */
    method PendAll()
      requires Distinct(jobs) && forall j | j in jobs :: OpenJob(j) && j.status.Waiting?
      modifies jobs`status
      ensures forall j | j in jobs :: OpenJob(j) && j.status.Pending?
    {
      var i := 0;
      while i < |jobs|
        invariant 0 <= i <= |jobs|
        invariant forall k | 0 <= k < i :: OpenJob(jobs[k]) && jobs[k].status.Pending?
        invariant forall k | i <= k < |jobs| :: OpenJob(jobs[k]) && jobs[k].status.Waiting?
      {
        jobs[i].EventPending();
        i := i + 1;
      }
    }

    /** block_job_txn_apply with block_job_needs_finalize. */
    method NeedsFinalize() returns (manual: bool)
      ensures manual <==> SomeManual(jobs)
    {
      var i := 0;
      while i < |jobs|
        invariant 0 <= i <= |jobs| && forall k | 0 <= k < i :: jobs[k].autoFinalize
      {
        if !jobs[i].autoFinalize {
          return true;
        }
        i := i + 1;
      }
      return false;
    }

    /** block_job_completed_txn_success, after the job's own transition. */
    method CompletedTxnSuccess(job: BlockJob) returns (ghost f: nat)
      requires Listed() && outcome.Open? && !aborting && !pending && job in jobs
      requires forall j | j in jobs :: OpenJob(j) && !j.status.Pending?
      modifies this, jobs
      ensures Valid() && members == old(members) && PausesKept(members) && Progress()
      ensures !old(AllDone(jobs)) ==> unchanged(this) && forall j | j in jobs :: unchanged(j)
      ensures old(AllDone(jobs)) ==>
                if SomeManual(old(jobs)) then outcome.Open? && pending && jobs == old(jobs)
                else FirstFailure(old(jobs), f) && outcome == Verdict(old(jobs), f, job)
    {
      f := 0;
      var all := AllCompleted();
      if all {
        f := PendOrFinalize(job);
      }
    }

    /** The rest of block_job_completed_txn_success, once all members have completed. */
    method PendOrFinalize(job: BlockJob) returns (ghost f: nat)
      requires Listed() && outcome.Open? && !aborting && !pending && job in jobs
      requires forall j | j in jobs :: OpenJob(j) && !j.status.Pending? && j.completed
      modifies this, jobs
      ensures Valid() && members == old(members) && PausesKept(members) && Progress()
      ensures if SomeManual(old(jobs)) then outcome.Open? && pending && jobs == old(jobs)
              else FirstFailure(old(jobs), f) && outcome == Verdict(old(jobs), f, job)
    {
      f := 0;
      PendAll();
      pending := true;
      Pended();
      var manual := NeedsFinalize();
      if !manual {
        f := EndFinalized(job);
      }
    }

    twostate lemma Pended()
      requires old(Listed()) && outcome.Open? && !aborting && pending && jobs == old(jobs) != []
      requires members == old(members)
      requires forall j | j in jobs :: OpenJob(j) && j.status.Pending?
      requires forall m | m in members && m !in jobs :: unchanged(m)
      ensures Valid()
    {
      forall m | m in members && m !in jobs
        ensures m.Valid() && !m.inTxn && Withdrawn(m)
      {
        assert old(Withdrawn(m)) && old(m.Valid());
      }
    }

    /** block_job_completed: any error or cancellation aborts all members. */
    method Completed(job: BlockJob, r: int) returns (ghost f: nat)
      requires Valid() && outcome.Open? && job in jobs && (r != 0 || job.cancelled ==> OthersStarted(job))
      requires (job.status.Created? && r != 0) || ((job.status.Running? || job.status.Ready?) && job.deferred)
      modifies this, jobs
      ensures Valid() && Faithful() && members == old(members) && PausesKept(members) && Progress()
      ensures r != 0 || old(job.cancelled) ==> outcome.AllAborted?
      ensures r == 0 && !old(job.cancelled) ==>
                if !old(AllDoneBut(jobs, job)) then
                  unchanged(this) && job.status.Waiting? && forall j | j in jobs && j != job :: unchanged(j)
                else if SomeManual(old(jobs)) then outcome.Open? && pending && jobs == old(jobs)
                else FirstFailure(old(jobs), f) && outcome == Verdict(old(jobs), f, job)
    {
      f := 0;
      if !job.cancelled && Failed() {
        CancelledRuns(job);
      }
      if r != 0 || job.cancelled {
        Fail(job, r);
      } else {
        f := Succeed(job);
      }
    }

    /** block_job_completed where block_job_update_rc leaves an error. */
    method Fail(job: BlockJob, r: int)
      requires Valid() && outcome.Open? && job in jobs && OthersStarted(job) && (r != 0 || job.cancelled)
      requires (job.status.Created? && r != 0) || ((job.status.Running? || job.status.Ready?) && job.deferred)
      modifies this, jobs
      ensures Valid() && outcome.AllAborted? && members == old(members) && PausesKept(members)
    {
      job.CompletedJob(r);
      CompletedKeeps(job);
      EndAborted(job);
    }

    /** block_job_completed where it leaves none. */
    method Succeed(job: BlockJob) returns (ghost f: nat)
      requires Valid() && outcome.Open? && job in jobs && !job.cancelled
      requires (job.status.Running? || job.status.Ready?) && job.deferred
      modifies this, jobs
      ensures Valid() && members == old(members) && PausesKept(members) && Progress()
      ensures if !old(AllDoneBut(jobs, job)) then
                unchanged(this) && job.status.Waiting? && forall j | j in jobs && j != job :: unchanged(j)
              else if SomeManual(old(jobs)) then outcome.Open? && pending && jobs == old(jobs)
              else FirstFailure(old(jobs), f) && outcome == Verdict(old(jobs), f, job)
    {
      job.CompletedJob(0);
      CompletedKeeps(job);
      assert AllDone(jobs) <==> old(AllDoneBut(jobs, job));
      f := CompletedTxnSuccess(job);
    }

    /** A transaction with a cancelled member has one that has not completed. */
    lemma CancelledRuns(job: BlockJob)
      requires Valid() && outcome.Open? && job in jobs && !job.cancelled && Failed()
      ensures !AllDoneBut(jobs, job)
    {
      var j :| j in jobs && j.cancelled;
      assert OpenJob(j);
    }

    /** The list when one of its jobs has completed. */
    twostate lemma CompletedKeeps(job: BlockJob)
      requires old(Valid()) && outcome.Open? && unchanged(this) && job in old(jobs) && !old(job.status.Pending?)
      requires job.Valid() && job.completed && job.inTxn && forall m | m in members && m != job :: unchanged(m)
      ensures Listed() && !aborting && !pending
      ensures job.ret == 0 && !job.cancelled && job.status.Waiting? ==>
                forall j | j in jobs :: OpenJob(j) && !j.status.Pending?
      ensures job.ret != 0 && old(OthersStarted(job)) ==> Abortable(jobs, job)
    {
      assert old(Listed()) && old(OpenJob(job)) && !pending;
      forall j | j in jobs && j != job
        ensures OpenJob(j) && !j.status.Pending? && j.completed == old(j.completed) && j.started == old(j.started)
      {
        assert j in members && old(OpenJob(j));
      }
      forall m | m in members && m !in jobs
        ensures m.Valid() && !m.inTxn && Withdrawn(m)
      {
        assert old(Withdrawn(m)) && old(m.Valid());
      }
    }

    /** block_job_cancel */
    method CancelJob(job: BlockJob, force: bool)
      requires Valid() && job in members && !job.status.Null?
      requires !job.status.Concluded? && (!job.started || job.deferred) ==> OthersStarted(job)
      modifies this, members
      ensures Valid() && Faithful() && members == old(members) && PausesKept(members)
      ensures old(Progress()) ==> Progress()
      ensures old(job.status).Concluded? ==> job.status.Null?
      ensures !old(job.status).Concluded? ==>
                if !old(job.started) || old(job.deferred) then outcome.AllAborted? else outcome.Open? && job.cancelled
    {
      if job.status.Concluded? {
        job.Decommission();
        Dismissed(job);
        return;
      }
      assert job.inTxn && Listed() && forall i | 0 <= i < |jobs| :: jobs[i] in members;
      job.CancelAsync(force);
      if !job.started {
        job.CompletedJob(-ECANCELED);
        EndAborted(job);
      } else if job.deferred {
        EndAborted(job);
      } else {
        job.Enter();
        CancelKeeps(job);
      }
    }

    /** Cancelling a running job leaves the transaction open. */
    twostate lemma CancelKeeps(job: BlockJob)
      requires old(Valid()) && outcome.Open? && job in old(jobs) && unchanged(this) && OpenJob(job)
      requires forall m | m in members && m != job :: unchanged(m)
      requires !old(job.completed) && !job.completed
      ensures Valid()
    {
      forall j | j in jobs
        ensures OpenJob(j) && j.status.Pending? == old(j.status.Pending?) && j.completed == old(j.completed)
      {
        assert j in members && old(OpenJob(j));
      }
      forall m | m in members && m !in jobs
        ensures m.Valid() && !m.inTxn && Withdrawn(m)
      {
        assert old(Withdrawn(m)) && old(m.Valid());
      }
    }

    twostate lemma Dismissed(job: BlockJob)
      requires old(Valid()) && job in old(members) && unchanged(this) && old(job.status).Concluded?
      requires job.Valid() && job.status.Null? && job.calls == old(job.calls)
      requires forall m | m in members && m != job :: unchanged(m)
      ensures Valid()
    {
      forall m | m in members
        ensures m.Valid() && !m.inTxn && Settled(m)
      {
        assert old(m.Valid()) && old(Settled(m));
      }
    }

    /** block_job_user_cancel */
    method UserCancel(job: BlockJob, force: bool) returns (ok: bool)
      requires Valid() && job in members
      requires VerbTable(Cancel, job.status) && (!job.started || job.deferred) ==> OthersStarted(job)
      modifies this, members
      ensures Valid() && Faithful() && members == old(members) && PausesKept(members)
      ensures old(Progress()) ==> Progress()
      ensures ok <==> VerbTable(Cancel, old(job.status))
      ensures !ok ==> unchanged(this) && forall m | m in members :: unchanged(m)
      ensures ok ==>
                if !old(job.started) || old(job.deferred) then outcome.AllAborted? else outcome.Open? && job.cancelled
    {
      ok := job.ApplyVerb(Cancel);
      if ok {
        CancelJob(job, force);
      }
    }

    /** block_job_finalize */
    method FinalizeJob(job: BlockJob) returns (ok: bool, ghost f: nat)
      requires Valid() && job in members
      modifies this, members
      ensures Valid() && Faithful() && members == old(members) && PausesKept(members)
      ensures old(Progress()) ==> Progress()
      ensures ok <==> old(job.status).Pending?
      ensures if ok then FirstFailure(old(jobs), f) && outcome == Verdict(old(jobs), f, job)
              else unchanged(this) && forall m | m in members :: unchanged(m)
      ensures ok ==> forall j | j in old(jobs) :: Ended(j, outcome.AllCommitted? || (outcome.Split? && j == job))
    {
      ok := job.ApplyVerb(Finalize);
      f := 0;
      if ok {
        assert job.inTxn && Listed() && forall i | 0 <= i < |jobs| :: jobs[i] in members;
        f := EndFinalized(job);
      }
    }

    /** block_job_dismiss */
    method DismissJob(job: BlockJob) returns (ok: bool)
      requires Valid() && job in members
      modifies members
      ensures Valid() && Faithful() && PausesKept(members) && (old(Progress()) ==> Progress())
      ensures (ok <==> old(job.status).Concluded?) && (ok ==> job.status.Null?)
      ensures forall m | m in members && (!ok || m != job) :: unchanged(m)
    {
      ok := job.DismissJob();
      if ok {
        Dismissed(job);
      }
    }

    /**
      block_job_early_fail.  If all other members have completed they wait for
      ever: nothing takes them to finalization.
     */
    method WithdrawJob(job: BlockJob)
      requires Valid() && job in jobs && job.status.Created?
      modifies this, members
      ensures Valid() && Faithful() && members == old(members) && PausesKept(members)
      ensures outcome.Open? && Withdrawn(job) && job !in jobs
      ensures forall j | j in old(jobs) && j != job :: j in jobs && unchanged(j)
      ensures Progress() <==> jobs == [] || !old(AllDoneBut(jobs, job))
    {
      assert Listed() && OpenJob(job) && !pending;
      Unlink(job);
      job.Decommission();
      WithdrawKeeps(job);
    }

    /** block_job_txn_del_job */
    method Unlink(job: BlockJob)
      requires Distinct(jobs) && job in jobs
      modifies `jobs
      ensures Distinct(jobs) && forall j :: j in jobs <==> j in old(jobs) && j != job
    {
      var i := 0;
      while jobs[i] != job
        invariant 0 <= i < |jobs| && forall k | 0 <= k < i :: jobs[k] != job
        decreases |jobs| - i
      {
        i := i + 1;
      }
      jobs := jobs[..i] + jobs[i + 1..];
      assert forall j | j in old(jobs) && j != job :: j in jobs;
    }

    /** The transaction goes on without a job that has left. */
    twostate lemma WithdrawKeeps(job: BlockJob)
      requires old(Valid()) && outcome.Open? && !old(pending) && unchanged(`outcome, `pending, `members, `aborting)
      requires job in old(jobs)
      requires Distinct(jobs) && forall j :: j in jobs <==> j in old(jobs) && j != job
      requires job.Valid() && !job.inTxn && Withdrawn(job) && forall m | m in members && m != job :: unchanged(m)
      ensures Valid() && (old(Failed()) ==> Failed() || old(job.cancelled))
    {
      forall m | m in members && m !in jobs
        ensures m.Valid() && !m.inTxn && Withdrawn(m)
      {
        assert m == job || old(m !in jobs && m.Valid() && Withdrawn(m));
      }
      forall j | j in jobs
        ensures j in members && OpenJob(j) && !j.status.Pending? && j.cancelled == old(j.cancelled)
      {
        assert old(OpenJob(j));
      }
    }

    /** What the code expects of whoever calls each operation. */
    predicate Enabled(job: BlockJob, op: Op)
      reads this, jobs, job
    {
      match op
      case Start => job.status.Created?
      case PausePoint => (job.status.Running? || job.status.Ready?) && !job.deferred
      case EventReady => job.status.Running? && !job.deferred
      case ErrorStop(_) => job.Live() && job.started && !job.deferred
      case DrainedEnd => job.drains > 0
      case DeferToMainLoop => (job.status.Running? || job.status.Ready?) && !job.deferred
      case Completed(r) =>
        (job.status.Running? || job.status.Ready?) && job.deferred && (r != 0 || job.cancelled ==> OthersStarted(job))
      case CancelJob(_) =>
        !job.status.Null? && (!job.status.Concluded? && (!job.started || job.deferred) ==> OthersStarted(job))
      case UserCancel(_) =>
        VerbTable(Cancel, job.status) && (!job.started || job.deferred) ==> OthersStarted(job)
      case EarlyFail => job.status.Created?
      case _ => true
    }

    /** The operations that complete nothing. */
    method StepJob(job: BlockJob, op: Op)
      requires Valid() && job in members && Enabled(job, op) && !op.CanEnd()
      modifies job
      ensures job.Valid() && job.Kept() && job.unowned == old(job.unowned) + B(op.ErrorStop? && old(job.userPaused))
    {
      assert job.Valid() by { MemberValid(job); }
      match op
      case Start => job.Start();
      case PausePoint => job.PausePoint();
      case Enter => job.Enter();
      case EventReady => job.EventReady();
      case ErrorStop(noSpace) => job.ErrorStop(noSpace);
      case UserPause => var _ := job.UserPause();
      case UserResume => var _ := job.UserResume();
      case DrainedBegin => job.DrainedBegin();
      case DrainedEnd => job.DrainedEnd();
      case DeferToMainLoop => job.DeferToMainLoop();
    }

    lemma MemberValid(m: BlockJob)
      requires Valid() && m in members
      ensures m.Valid() && (m.inTxn <==> m in jobs) && (m.inTxn ==> outcome.Open?)
    {
    }

    /** Any operation on any member. */
    method Perform(job: BlockJob, op: Op)
      requires Valid() && job in members && Enabled(job, op)
      modifies this, members
      ensures Valid() && Faithful() && members == old(members) && (old(Progress()) && !op.EarlyFail? ==> Progress())
      ensures forall m | m in members :: m.unowned == old(m.unowned) + B(m == job && op.ErrorStop? && old(m.userPaused))
    {
      if op.CanEnd() {
        EndJob(job, op);
      } else {
        StepJob(job, op);
        StepKeeps(job);
      }
    }

    /** The operations that can complete, finalize or dismiss a job. */
    method EndJob(job: BlockJob, op: Op)
      requires Valid() && job in members && Enabled(job, op) && op.CanEnd()
      modifies this, members
      ensures Valid() && Faithful() && members == old(members) && PausesKept(members)
      ensures old(Progress()) && !op.EarlyFail? ==> Progress()
    {
      MemberValid(job);
      match op
      case Completed(r) =>
        assert Listed() && forall i | 0 <= i < |jobs| :: jobs[i] in members;
        var _ := Completed(job, r);
      case CancelJob(force) => CancelJob(job, force);
      case UserCancel(force) => var _ := UserCancel(job, force);
      case FinalizeJob => var _, _ := FinalizeJob(job);
      case DismissJob => var _ := DismissJob(job);
      case EarlyFail => WithdrawJob(job);
    }

    /** A new job, if jobs can still join. */
    method CreateJob(autoFinalize: bool, autoDismiss: bool, prepareResult: int, finishResult: int)
      requires Valid()
      modifies this
      ensures Valid() && Faithful() && (old(Progress()) ==> Progress())
      ensures forall m | m in members :: m in old(members) || fresh(m)
      ensures members == old(members) <==> !(old(outcome).Open? && !old(pending))
    {
      CanAddIs();
      if CanAdd() {
        var job := new BlockJob(autoFinalize, autoDismiss, prepareResult, finishResult);
        AddJob(job);
      }
    }

    /** Any one event. */
    method Happen(e: Event)
      requires Valid()
      modifies this, members
      ensures Valid() && Faithful()
      ensures forall m | m in members :: m in old(members) || fresh(m)
      ensures forall m | m in old(members) :: old(m.unowned) <= m.unowned
      ensures NoErrorStop([e]) ==> PausesKept(old(members))
      ensures old(Progress()) && NoEarlyFail([e]) ==> Progress()
    {
      assert [e][0] == e;
      if e.Create? {
        CreateJob(e.autoFinalize, e.autoDismiss, e.prepareResult, e.finishResult);
      } else if e.n < |members| && Enabled(members[e.n], e.op) {
        Perform(members[e.n], e.op);
      }
    }

    /**
      Every run: whatever the operations and their order, no assertion of the code
      fails, and in the end the transaction is open or its members have all
      aborted, all committed, or split; a transaction that has failed only aborts.
      Only an error that stops a job which its user has paused leaves a pause
      without an owner, and only an early failure leaves members waiting for ever.
     */
    method Run(events: seq<Event>)
      requires Valid()
      modifies this, members
      ensures Valid() && Faithful()
      ensures forall m | m in old(members) :: old(m.unowned) <= m.unowned
      ensures NoErrorStop(events) ==> PausesKept(old(members))
      ensures old(Progress()) && NoEarlyFail(events) ==> Progress()
      decreases |events|
    {
      if events != [] {
        var e, rest := events[0], events[1..];
        assert events == [e] + rest;
        Happen(e);
        assert forall k | 0 <= k < |members| :: members[k] in old(members) || fresh(members[k]);
        Run(rest);
      }
    }
  }

  /** A job starts, and schedules its completion at once. */
  method StartAndDefer(txn: BlockJobTxn, job: BlockJob)
    requires txn.Valid() && job in txn.members && job.Valid() && job.status.Created?
    modifies job
    ensures txn.Valid() && job.status.Running? && job.deferred && job.cancelled == old(job.cancelled)
  {
    job.Start();
    job.DeferToMainLoop();
    txn.StepKeeps(job);
  }

  /** Two jobs in one transaction. */
  method TwoJobs(prepareA: int, prepareB: int) returns (txn: BlockJobTxn, a: BlockJob, b: BlockJob)
    ensures fresh(txn) && fresh(a) && fresh(b) && a != b && txn.Valid() && txn.outcome.Open?
    ensures txn.jobs == txn.members == [b, a]
    ensures a.status.Created? && !a.cancelled && a.prepareResult == prepareA && !a.autoFinalize
    ensures b.status.Created? && !b.cancelled && b.prepareResult == prepareB && !b.autoFinalize
  {
    a := new BlockJob(false, false, prepareA, 0);
    b := new BlockJob(false, false, prepareB, 0);
    txn := new BlockJobTxn();
    txn.AddJob(a);
    txn.AddJob(b);
  }

  /** The first of two jobs completes, and waits for the second. */
  method CompleteFirst(txn: BlockJobTxn, a: BlockJob, b: BlockJob)
    requires txn.Valid() && txn.outcome.Open? && txn.jobs == txn.members == [b, a] && a != b
    requires a.status.Running? && a.deferred && !a.cancelled && b.status.Running?
    modifies txn, a, b
    ensures txn.Valid() && txn.outcome.Open? && txn.jobs == txn.members == [b, a] && a.status.Waiting? && unchanged(b)
  {
    assert b in txn.jobs && b.Valid() && !b.completed;
    var _ := txn.Completed(a, 0);
  }

  /** The second completes, and both wait for finalization. */
  method CompleteSecond(txn: BlockJobTxn, a: BlockJob, b: BlockJob)
    requires txn.Valid() && txn.outcome.Open? && txn.jobs == txn.members == [b, a] && a != b
    requires a.status.Waiting? && b.status.Running? && b.deferred && !b.cancelled && !b.autoFinalize
    modifies txn, a, b
    ensures txn.Valid() && txn.outcome.Open? && txn.jobs == txn.members == [b, a] && a.status.Pending?
  {
    assert a in txn.jobs && b in txn.jobs && a.Valid() && a.completed;
    var _ := txn.Completed(b, 0);
    assert a in txn.jobs;
  }

  /** A transaction that splits: of two jobs the second fails to prepare and the first finalizes. */
  method SplitTransaction() returns (txn: BlockJobTxn, a: BlockJob, b: BlockJob)
    ensures txn.Valid() && txn.outcome.Split? && a in txn.members && b in txn.members && a.Committed() && b.Aborted()
  {
    txn, a, b := TwoJobs(0, -5);
    StartAndDefer(txn, a);
    StartAndDefer(txn, b);
    CompleteFirst(txn, a, b);
    CompleteSecond(txn, a, b);
    var ok, f := txn.FinalizeJob(a);
    assert txn.members[0] == b && f == 0;
  }
}
