/** One block job: its life cycle, pause accounting and driver callbacks (qemu/blockjob.c). */
module BlockJobs {

  datatype Status =
    | Undefined | Created | Running | Paused | Ready | Standby | Waiting | Pending | Aborting | Concluded | Null

  datatype Verb = Cancel | Pause | Resume | SetSpeed | Complete | Finalize | Dismiss

  datatype IoStatus = Ok | Failed | NoSpace

  /** The callbacks of the driver that matter to a transaction. */
  datatype Call = DriverPrepare | DriverCommit | DriverAbort | DriverClean

  /** BlockJobSTT */
  predicate Stt(s0: Status, s1: Status) {
    match s0
    case Undefined => s1.Created?
    case Created => s1.Running? || s1.Aborting? || s1.Null?
    case Running => s1.Paused? || s1.Ready? || s1.Waiting? || s1.Aborting?
    case Paused => s1.Running?
    case Ready => s1.Standby? || s1.Waiting? || s1.Aborting?
    case Standby => s1.Ready?
    case Waiting => s1.Pending? || s1.Aborting?
    case Pending => s1.Aborting? || s1.Concluded?
    case Aborting => s1.Aborting? || s1.Concluded?
    case Concluded => s1.Null?
    case Null => false
  }

  /** BlockJobVerbTable */
  predicate VerbTable(v: Verb, s: Status) {
    match v
    case Cancel => s.Created? || s.Running? || s.Paused? || s.Ready? || s.Standby? || s.Waiting? || s.Pending?
    case Complete => s.Ready?
    case Finalize => s.Pending?
    case Dismiss => s.Concluded?
    case _ => s.Created? || s.Running? || s.Paused? || s.Ready? || s.Standby?
  }

  const ECANCELED: int := 125

  function B(b: bool): nat {
    if b then 1 else 0
  }

  /** The status that a pause point leaves, and the one that it goes back to. */
  function AtPause(s: Status): Status {
    if s.Ready? then Standby else Paused
  }

  function AfterPause(s: Status): Status {
    if s.Standby? then Ready else Running
  }

  /**
    The members that the model keeps of BlockJob.  prepareResult and finishResult
    stand for the driver: what its prepare callback returns, and with what it
    completes once it is told to finish.  calls records its callbacks, drains the
    drained sections that hold the job, unowned the pauses that nobody will take
    back, and refcnt the reference of the job list.
   */
  class BlockJob {
    const autoFinalize: bool
    const autoDismiss: bool
    const prepareResult: int
    const finishResult: int
    var status: Status
    var ret: int
    var cancelled: bool
    var force: bool
    var completed: bool
    var busy: bool
    var paused: bool
    var pauseCount: int
    var userPaused: bool
    var iostatus: IoStatus
    var ready: bool
    var deferred: bool
    var started: bool
    var inTxn: bool
    var refcnt: int
    var calls: seq<Call>
    var drains: nat
    ghost var unowned: nat

    /**
      A pause is owned by the user, a drained section or the job's creation, or it
      is unowned; and a job with an I/O error is paused by its user.
     */
    ghost predicate Counted()
      reads this
    {
      && pauseCount == B(userPaused) + drains + B(!started) + unowned
      && (iostatus != Ok ==> userPaused)
      && refcnt == B(status != Null)
    }

    predicate Live()
      reads this
    {
      status.Created? || status.Running? || status.Paused? || status.Ready? || status.Standby?
    }

    /** How the flags follow the status. */
    predicate Shaped()
      reads this
    {
      && !status.Undefined?
      && (completed <==> !Live())
      && (status.Created? ==> !started && paused && !deferred && ret == 0)
      && (Live() && !status.Created? ==> started && ret == 0)
      && (status.Running? || status.Ready? ==> !paused)
      && (status.Paused? || status.Standby? ==> paused && !deferred && !busy)
      && (status.Ready? || status.Standby? ==> ready)
      && (status.Waiting? || status.Pending? ==> started)
      && (completed && started ==> deferred)
      && (status.Aborting? ==> ret != 0)
      && (inTxn <==> !status.Concluded? && !status.Null?)
      && (Live() || status.Waiting? ==> calls == [])
      && (status.Pending? || status.Aborting? ==> calls == [] || calls == [DriverPrepare])
    }

    ghost predicate Valid()
      reads this
    {
      Counted() && Shaped()
    }

    /** What no step of a driver or of the monitor changes before the job completes. */
    twostate predicate Kept()
      reads this
    {
      && ret == old(ret) && calls == old(calls) && inTxn == old(inTxn) && completed == old(completed)
      && cancelled == old(cancelled) && (old(started) ==> started) && (!old(Live()) ==> status == old(status))
    }

    /** abort and then clean ran, each once, and commit did not. */
    predicate Aborted()
      reads this
    {
      calls == [DriverAbort, DriverClean] || calls == [DriverPrepare, DriverAbort, DriverClean]
    }

    /** commit and then clean ran, each once, and abort did not. */
    predicate Committed()
      reads this
    {
      calls == [DriverCommit, DriverClean] || calls == [DriverPrepare, DriverCommit, DriverClean]
    }

    predicate Over()
      reads this
    {
      completed && !inTxn && (status.Concluded? || status.Null?)
    }

    /** block_job_state_transition: its precondition is the assertion on the table. */
    method StateTransition(s1: Status)
      requires Stt(status, s1)
      modifies `status
      ensures status == s1 && (s1.Null? ==> old(status).Created? || old(status).Concluded?)
    {
      status := s1;
    }

    /** block_job_create, up to the transaction. */
    constructor (autoFinalize: bool, autoDismiss: bool, prepareResult: int, finishResult: int)
      ensures Valid() && status.Created? && drains == 0 && unowned == 0 && !cancelled
      ensures this.autoFinalize == autoFinalize && this.autoDismiss == autoDismiss
      ensures this.prepareResult == prepareResult && this.finishResult == finishResult
    {
      this.autoFinalize, this.autoDismiss := autoFinalize, autoDismiss;
      this.prepareResult, this.finishResult := prepareResult, finishResult;
      status, ret, cancelled, force, completed := Undefined, 0, false, false, false;
      busy, paused, pauseCount, userPaused, iostatus, ready := false, true, 1, false, Ok, false;
      deferred, started, inTxn, refcnt, calls, drains, unowned := false, false, true, 1, [], 0, 0;
      new;
      StateTransition(Created);
    }

    /** block_job_apply_verb */
    method ApplyVerb(v: Verb) returns (allowed: bool)
      ensures allowed <==> VerbTable(v, status)
    {
      allowed := VerbTable(v, status);
    }

    /** block_job_start */
    method Start()
      requires Valid() && status.Created?
      modifies `started, `pauseCount, `busy, `paused, `status
      ensures Valid() && status.Running? && pauseCount == old(pauseCount) - 1
      ensures Kept() && !deferred
    {
      started := true;
      pauseCount := pauseCount - 1;
      busy := true;
      paused := false;
      StateTransition(Running);
    }

    /** block_job_pause and block_job_resume as drained sections use them. */
    method DrainedBegin()
      requires Valid()
      modifies `pauseCount, `drains
      ensures Valid() && Kept() && pauseCount == old(pauseCount) + 1 && drains == old(drains) + 1
    {
      pauseCount := pauseCount + 1;
      drains := drains + 1;
    }

    method DrainedEnd()
      requires Valid() && drains > 0
      modifies `drains, `pauseCount, `busy, `paused, `status
      ensures Valid() && pauseCount == old(pauseCount) - 1 && drains == old(drains) - 1
      ensures pauseCount == 0 && !deferred ==> !paused
      ensures Kept()
    {
      drains := drains - 1;
      ResumeOne();
    }

    /** block_job_resume */
    method ResumeOne()
      requires pauseCount == B(userPaused) + drains + B(!started) + unowned + 1
      requires iostatus != Ok ==> userPaused
      requires refcnt == B(status != Null) && Shaped()
      modifies `pauseCount, `busy, `paused, `status
      ensures Valid() && pauseCount == old(pauseCount) - 1
      ensures Kept()
      ensures if pauseCount > 0 then unchanged(`status, `paused) else started && !deferred ==> !paused
    {
      assert pauseCount > 0;
      pauseCount := pauseCount - 1;
      if pauseCount > 0 {
        return;
      }
      Enter();
    }

    /**
      block_job_enter: wakes a job that is not busy.  If it had yielded at a pause
      point it goes back to the status it had there.
     */
    method Enter()
      requires Valid()
      modifies `busy, `paused, `status
      ensures Valid() && (started && !deferred ==> busy && !paused)
      ensures status == if old(started && !deferred && !busy && paused) then AfterPause(old(status)) else old(status)
      ensures Kept()
    {
      if !started || deferred || busy {
        return;
      }
      busy := true;
      if paused {
        paused := false;
        StateTransition(AfterPause(status));
      }
    }

    /** block_job_pause_point, up to where the job yields. */
    method PausePoint()
      requires Valid() && (status.Running? || status.Ready?) && !deferred
      modifies `busy, `paused, `status
      ensures Valid() && paused == (pauseCount > 0 && !cancelled)
      ensures if paused then status == AtPause(old(status)) && AfterPause(status) == old(status) && !busy
              else unchanged(this)
      ensures Kept()
    {
      if pauseCount > 0 && !cancelled {
        StateTransition(AtPause(status));
        paused := true;
        busy := false;
      }
    }

    /** block_job_event_ready: once, from a running job. */
    method EventReady()
      requires Valid() && status.Running?
      modifies `status, `ready
      ensures Valid() && Kept() && status.Ready?
    {
      StateTransition(Ready);
      ready := true;
    }

    /**
      block_job_error_action where the action is to stop.  It adds a pause even if
      the job is already paused by its user, and then one pause has no owner.
     */
    method ErrorStop(noSpace: bool)
      requires Valid() && !status.Null?
      modifies `pauseCount, `userPaused, `iostatus, `unowned
      ensures Valid() && Kept() && userPaused && pauseCount == old(pauseCount) + 1
      ensures iostatus == if old(iostatus) != Ok then old(iostatus) else if noSpace then NoSpace else Failed
      ensures unowned == old(unowned) + B(old(userPaused))
    {
      pauseCount := pauseCount + 1;
      unowned := unowned + B(userPaused);
      userPaused := true;
      if iostatus == Ok {
        iostatus := if noSpace then NoSpace else Failed;
      }
    }

    /** block_job_user_pause */
    method UserPause() returns (ok: bool)
      requires Valid()
      modifies `pauseCount, `userPaused
      ensures Valid() && Kept() && (ok <==> VerbTable(Pause, status) && !old(userPaused))
      ensures if ok then userPaused && pauseCount == old(pauseCount) + 1
              else userPaused == old(userPaused) && pauseCount == old(pauseCount)
    {
      ok := ApplyVerb(Pause);
      if !ok || userPaused {
        return false;
      }
      userPaused := true;
      pauseCount := pauseCount + 1;
    }

    /** block_job_iostatus_reset: its precondition is the assertion there. */
    method IostatusReset()
      requires iostatus != Ok ==> userPaused && pauseCount > 0
      modifies `iostatus
      ensures iostatus == Ok
    {
      iostatus := Ok;
    }

    /** block_job_user_resume */
    method UserResume() returns (ok: bool)
      requires Valid()
      modifies `iostatus, `userPaused, `pauseCount, `busy, `paused, `status
      ensures Valid() && (ok <==> old(userPaused) && VerbTable(Resume, old(status)))
      ensures ok ==> !userPaused && iostatus == Ok && pauseCount == old(pauseCount) - 1
      ensures !ok ==> unchanged(this)
      ensures Kept()
      ensures if pauseCount > 0 then unchanged(`status, `paused) else ok && started && !deferred ==> !paused
      ensures ok && started ==> pauseCount == drains + unowned
    {
      if !userPaused || pauseCount <= 0 {
        return false;
      }
      ok := ApplyVerb(Resume);
      if !ok {
        return;
      }
      IostatusReset();
      userPaused := false;
      ResumeOne();
    }

    /** block_job_cancel_async */
    method CancelAsync(force: bool)
      requires Valid()
      modifies `iostatus, `userPaused, `pauseCount, `cancelled, `force
      ensures Valid() && cancelled && iostatus == Ok && !userPaused
      ensures this.force == (old(this.force) || force)
      ensures pauseCount == old(pauseCount) - B(old(userPaused))
    {
      if iostatus != Ok {
        IostatusReset();
      }
      if userPaused {
        userPaused := false;
        pauseCount := pauseCount - 1;
      }
      cancelled := true;
      this.force := this.force || force;
    }

    /** block_job_update_rc */
    method UpdateRc()
      requires ret != 0 || cancelled ==> Stt(status, Aborting)
      modifies `ret, `status
      ensures ret == if old(ret) == 0 && cancelled then -ECANCELED else old(ret)
      ensures status == if ret != 0 then Aborting else old(status)
    {
      if ret == 0 && cancelled {
        ret := -ECANCELED;
      }
      if ret != 0 {
        StateTransition(Aborting);
      }
    }

    /** block_job_defer_to_main_loop: the job's coroutine is over, its completion is scheduled. */
    method DeferToMainLoop()
      requires Valid() && (status.Running? || status.Ready?)
      modifies `deferred
      ensures Valid() && Kept() && deferred
    {
      deferred := true;
    }

    /**
      What block_job_completed does to the job itself, with the first transition of
      block_job_completed_txn_success.
     */
    method CompletedJob(r: int)
      requires Valid() && ((status.Created? && r != 0) || ((status.Running? || status.Ready?) && deferred))
      modifies `completed, `ret, `status
      ensures Valid() && completed && ret == (if r == 0 && cancelled then -ECANCELED else r)
      ensures status == if ret != 0 then Aborting else Waiting
    {
      completed := true;
      ret := r;
      UpdateRc();
      if ret == 0 {
        StateTransition(Waiting);
      }
    }

    /**
      block_job_finish_sync on a started job that has been cancelled: it is driven
      on until it completes, which a cancelled job only does with an error.
     */
    method FinishSync()
      requires Valid() && Live() && started && cancelled
      modifies `busy, `paused, `status, `deferred, `completed, `ret
      ensures Valid() && status.Aborting? && cancelled
    {
      Enter();
      deferred := true;
      CompletedJob(finishResult);
    }

    /** block_job_event_pending */
    method EventPending()
      requires Valid() && status.Waiting?
      modifies `status
      ensures Valid() && status.Pending?
    {
      StateTransition(Pending);
    }

    /** block_job_prepare */
    method Prepare() returns (rc: int)
      requires Valid() && status.Pending? && calls == []
      modifies `ret, `calls
      ensures Valid() && rc == ret && ret == (if old(ret) == 0 then prepareResult else old(ret))
      ensures calls == if old(ret) == 0 then [DriverPrepare] else []
    {
      if ret == 0 {
        calls := calls + [DriverPrepare];
        ret := prepareResult;
      }
      return ret;
    }

    /** block_job_commit and block_job_abort: their preconditions are the assertions there. */
    method Commit()
      requires ret == 0
      modifies `calls
      ensures calls == old(calls) + [DriverCommit]
    {
      calls := calls + [DriverCommit];
    }

    method Abort()
      requires ret != 0
      modifies `calls
      ensures calls == old(calls) + [DriverAbort]
    {
      calls := calls + [DriverAbort];
    }

    /** block_job_unref: its precondition is the assertion there. */
    method Unref()
      requires refcnt == 1 ==> status.Null? && !inTxn
      modifies `refcnt
      ensures refcnt == old(refcnt) - 1
    {
      refcnt := refcnt - 1;
    }

    /** block_job_decommission */
    method Decommission()
      requires Counted() && Stt(status, Null)
      modifies `completed, `busy, `paused, `deferred, `inTxn, `status, `refcnt
      ensures Valid() && status.Null?
    {
      completed := true;
      busy := false;
      paused := false;
      deferred := true;
      inTxn := false;
      StateTransition(Null);
      Unref();
    }

    /** block_job_conclude */
    method Conclude()
      requires Counted() && completed && !inTxn && Stt(status, Concluded) && (started ==> deferred)
      modifies `completed, `busy, `paused, `deferred, `inTxn, `status, `refcnt
      ensures Valid() && status == if autoDismiss || !started then Null else Concluded
    {
      StateTransition(Concluded);
      if autoDismiss || !started {
        Decommission();
      }
    }

    /** block_job_finalize_single, apart from the list of the transaction. */
    method FinalizeSingle()
      requires Valid() && completed && inTxn && (ret == 0 && !cancelled ==> status.Pending?)
      modifies `ret, `status, `calls, `inTxn, `completed, `busy, `paused, `deferred, `refcnt
      ensures Valid() && Over()
      ensures ret == if old(ret) == 0 && cancelled then -ECANCELED else old(ret)
      ensures calls == old(calls) + [if ret == 0 then DriverCommit else DriverAbort, DriverClean]
      ensures if ret == 0 then Committed() else Aborted()
    {
      UpdateRc();
      if ret == 0 {
        Commit();
      } else {
        Abort();
      }
      calls := calls + [DriverClean];
      inTxn := false;
      Conclude();
    }

    /** block_job_do_dismiss after block_job_dismiss has checked the verb. */
    method DismissJob() returns (ok: bool)
      requires Valid()
      modifies `completed, `busy, `paused, `deferred, `inTxn, `status, `refcnt
      ensures Valid() && (ok <==> old(status).Concluded?)
      ensures if ok then status.Null? else unchanged(this)
    {
      ok := ApplyVerb(Dismiss);
      if ok {
        Decommission();
      }
    }
  }

  /** A job that its user has resumed, that nobody pauses, and that stays paused. */
  method PauseWithoutOwner() returns (job: BlockJob)
    ensures job.Valid() && job.status.Paused? && job.pauseCount == job.unowned == 1 && !job.userPaused
    ensures job.drains == 0 && job.started
  {
    job := new BlockJob(false, false, 0, 0);
    job.Start();
    var paused := job.UserPause();
    job.ErrorStop(false);
    job.PausePoint();
    var resumed := job.UserResume();
  }
}
