/**
  The exclusive-section protocol of qemu/cpus-common.c as a state machine.  Each
  atomic read or write of shared state, each lock, unlock, wait and wakeup is
  one step, and steps of any number of threads interleave; the smp_mb calls
  between the write and the read of each side make this interleaving order the
  order that every thread sees.
 */
module Exclusive {
  import opened Basics

  /**
    Where a thread is, named after the step it is about to take.  Start*, End*:
    start_exclusive and end_exclusive.  Exec*, Leave*: cpu_exec_start and
    cpu_exec_end.  *Sleep: inside qemu_cond_wait, with the lock released; *Wake:
    woken, about to take the lock again.
   */
  datatype Pc =
    | Outside
    | StartLock | StartIdleTest | StartIdleSleep | StartIdleWake
    | StartSetPending | StartScan(i: nat, count: nat) | StartMark(i: nat, count: nat) | StartPublish(count: nat)
    | StartWaitTest | StartSleep | StartWake | StartUnlock
    | InExclusive
    | EndLock | EndReset | EndBroadcast | EndUnlock
    | ExecReadPending | ExecLock | ExecTestWaiter | ExecClearRunning
    | ExecIdleTest | ExecIdleSleep | ExecIdleWake | ExecSetRunning | ExecUnlock
    | Executing
    | LeaveReadPending | LeaveLock | LeaveTestWaiter | LeaveClearWaiter | LeaveDecrement | LeaveTestSignal | LeaveUnlock

  /**
    Threads are numbered; thread t < |running| runs vCPU t.  The last three
    fields only record history: the thread between its write of 1 and its write
    of 0 to pending_cpus, and how often each vCPU was counted and discounted.
   */
  datatype State = State(
    pc: seq<Pc>,
    running: seq<bool>,
    hasWaiter: seq<bool>,
    pendingCpus: int,
    lock: Option<nat>,
    owner: Option<nat>,
    counted: seq<nat>,
    discounted: seq<nat>)

  function At(s: State, t: nat, pc: Pc): State
    requires t < |s.pc|
  {
    s.(pc := s.pc[t := pc])
  }

  /** qemu_cond_broadcast(&exclusive_resume) */
  function Resumed(pc: Pc): Pc {
    match pc
    case StartIdleSleep => StartIdleWake
    case ExecIdleSleep => ExecIdleWake
    case _ => pc
  }

  ghost predicate Shape(s: State, t: nat) {
    t < |s.pc| && |s.running| == |s.hasWaiter| == |s.counted| == |s.discounted| <= |s.pc|
  }

  /** A step of start_exclusive up to its write of 1 to pending_cpus, where a caller waits its turn. */
  ghost predicate EnterStep(s: State, t: nat, s': State)
    requires Shape(s, t)
  {
    match s.pc[t]
    case Outside => s' == At(s, t, StartLock)
    case StartLock => s.lock.None? && s' == At(s.(lock := Some(t)), t, StartIdleTest)
    case StartIdleTest =>
      s' == if s.pendingCpus != 0 then At(s.(lock := None), t, StartIdleSleep) else At(s, t, StartSetPending)
    case StartIdleSleep => s' == At(s, t, StartIdleWake)
    case StartIdleWake => s.lock.None? && s' == At(s.(lock := Some(t)), t, StartIdleTest)
    case _ => false
  }

  /** A step of the scan of start_exclusive. */
  ghost predicate ScanStep(s: State, t: nat, s': State)
    requires Shape(s, t)
  {
    match s.pc[t]
    case StartSetPending => s' == At(s.(pendingCpus := 1, owner := Some(t)), t, StartScan(0, 0))
    case StartScan(i, count) =>
      s' == if i >= |s.running| then At(s, t, StartPublish(count))
            else if s.running[i] then At(s, t, StartMark(i, count))
            else At(s, t, StartScan(i + 1, count))
    case StartMark(i, count) =>
      && i < |s.running|
      && s' == At(s.(hasWaiter := s.hasWaiter[i := true], counted := s.counted[i := s.counted[i] + 1]), t,
                  StartScan(i + 1, count + 1))
    case StartPublish(count) => s' == At(s.(pendingCpus := count + 1), t, StartWaitTest)
    case _ => false
  }

  /** A step of the wait loop of start_exclusive, and the end of the exclusive section. */
  ghost predicate WaitStep(s: State, t: nat, s': State)
    requires Shape(s, t)
  {
    match s.pc[t]
    case StartWaitTest => s' == if s.pendingCpus > 1 then At(s.(lock := None), t, StartSleep) else At(s, t, StartUnlock)
    case StartSleep => s' == At(s, t, StartWake)
    case StartWake => s.lock.None? && s' == At(s.(lock := Some(t)), t, StartWaitTest)
    case StartUnlock => s' == At(s.(lock := None), t, InExclusive)
    case InExclusive => s' == At(s, t, EndLock)
    case EndLock => s.lock.None? && s' == At(s.(lock := Some(t)), t, EndReset)
    case EndUnlock => s' == At(s.(lock := None), t, Outside)
    case _ => false
  }

  /** The two writes of end_exclusive. */
  ghost predicate EndStep(s: State, t: nat, s': State)
    requires Shape(s, t)
  {
    match s.pc[t]
    case EndReset => s' == At(s.(pendingCpus := 0, owner := None), t, EndBroadcast)
    case EndBroadcast => s' == At(s.(pc := seq(|s.pc|, i requires 0 <= i < |s.pc| => Resumed(s.pc[i]))), t, EndUnlock)
    case _ => false
  }

  /** A step of cpu_exec_start. */
  ghost predicate ExecStep(s: State, t: nat, s': State)
    requires Shape(s, t)
  {
    && t < |s.running|
    && match s.pc[t]
       case Outside => s' == At(s.(running := s.running[t := true]), t, ExecReadPending)
       case ExecReadPending => s' == At(s, t, if s.pendingCpus != 0 then ExecLock else Executing)
       case ExecLock => s.lock.None? && s' == At(s.(lock := Some(t)), t, ExecTestWaiter)
       case ExecTestWaiter => s' == At(s, t, if s.hasWaiter[t] then ExecUnlock else ExecClearRunning)
       case ExecClearRunning => s' == At(s.(running := s.running[t := false]), t, ExecIdleTest)
       case ExecIdleTest =>
         s' == if s.pendingCpus != 0 then At(s.(lock := None), t, ExecIdleSleep) else At(s, t, ExecSetRunning)
       case ExecIdleSleep => s' == At(s, t, ExecIdleWake)
       case ExecIdleWake => s.lock.None? && s' == At(s.(lock := Some(t)), t, ExecIdleTest)
       case ExecSetRunning => s' == At(s.(running := s.running[t := true]), t, ExecUnlock)
       case ExecUnlock => s' == At(s.(lock := None), t, Executing)
       case _ => false
  }

  /** A step of cpu_exec_end other than the discounting. */
  ghost predicate LeaveStep(s: State, t: nat, s': State)
    requires Shape(s, t)
  {
    && t < |s.running|
    && match s.pc[t]
       case Executing => s' == At(s.(running := s.running[t := false]), t, LeaveReadPending)
       case LeaveReadPending => s' == At(s, t, if s.pendingCpus != 0 then LeaveLock else Outside)
       case LeaveLock => s.lock.None? && s' == At(s.(lock := Some(t)), t, LeaveTestWaiter)
       case LeaveTestWaiter => s' == At(s, t, if s.hasWaiter[t] then LeaveClearWaiter else LeaveUnlock)
       case LeaveUnlock => s' == At(s.(lock := None), t, Outside)
       case _ => false
  }

  /** Discounting in cpu_exec_end, and the test for the last one. */
  ghost predicate DiscountStep(s: State, t: nat, s': State)
    requires Shape(s, t)
  {
    && t < |s.running|
    && match s.pc[t]
       case LeaveClearWaiter => s' == At(s.(hasWaiter := s.hasWaiter[t := false]), t, LeaveDecrement)
       case LeaveDecrement =>
         s' == At(s.(pendingCpus := s.pendingCpus - 1, discounted := s.discounted[t := s.discounted[t] + 1]), t,
                  LeaveTestSignal)
       case LeaveTestSignal => (s.pendingCpus != 1 || NoSleeper(s)) && s' == At(s, t, LeaveUnlock)
       case _ => false
  }

  ghost predicate NoSleeper(s: State) {
    forall u | 0 <= u < |s.pc| :: s.pc[u] != StartSleep
  }

  /** The decrement that reaches 1 signals exclusive_cond, which wakes one sleeping thread u. */
  ghost predicate SignalStep(s: State, t: nat, u: nat, s': State)
    requires Shape(s, t)
  {
    && t < |s.running| && u < |s.pc|
    && s.pc[t] == LeaveTestSignal && s.pc[u] == StartSleep && s.pendingCpus == 1
    && s' == At(At(s, u, StartWake), t, LeaveUnlock)
  }

  /** A step of thread t.  A waiting thread may also wake without a signal. */
  ghost predicate Step(s: State, t: nat, s': State)
    requires Shape(s, t)
  {
    || EnterStep(s, t, s') || ScanStep(s, t, s') || WaitStep(s, t, s') || EndStep(s, t, s')
    || ExecStep(s, t, s') || LeaveStep(s, t, s') || DiscountStep(s, t, s')
    || exists u: nat :: SignalStep(s, t, u, s')
  }

  predicate Init(s: State) {
    && |s.running| == |s.hasWaiter| == |s.counted| == |s.discounted| <= |s.pc|
    && (forall t | 0 <= t < |s.pc| :: s.pc[t] == Outside)
    && (forall c | 0 <= c < |s.running| ::
          !s.running[c] && !s.hasWaiter[c] && s.counted[c] == 0 && s.discounted[c] == 0)
    && s.pendingCpus == 0 && s.lock == None && s.owner == None
  }

  /** The thread holds qemu_cpu_list_lock. */
  predicate Holds(pc: Pc) {
    || pc.StartIdleTest? || pc.StartSetPending? || pc.StartScan? || pc.StartMark? || pc.StartPublish?
    || pc.StartWaitTest? || pc.StartUnlock? || pc.EndReset? || pc.EndBroadcast? || pc.EndUnlock?
    || pc.ExecTestWaiter? || pc.ExecClearRunning? || pc.ExecIdleTest? || pc.ExecSetRunning? || pc.ExecUnlock?
    || pc.LeaveTestWaiter? || pc.LeaveClearWaiter? || pc.LeaveDecrement? || pc.LeaveTestSignal? || pc.LeaveUnlock?
  }

  /** The thread has written 1 to pending_cpus and not yet 0. */
  predicate Owns(pc: Pc) {
    || pc.StartScan? || pc.StartMark? || pc.StartPublish? || pc.StartWaitTest? || pc.StartSleep? || pc.StartWake?
    || pc.StartUnlock? || pc.InExclusive? || pc.EndLock? || pc.EndReset?
  }

  /** Only vCPU threads are here. */
  predicate CpuPc(pc: Pc) {
    || pc.ExecReadPending? || pc.ExecLock? || pc.ExecTestWaiter? || pc.ExecClearRunning? || pc.ExecIdleTest?
    || pc.ExecIdleSleep? || pc.ExecIdleWake? || pc.ExecSetRunning? || pc.ExecUnlock? || pc.Executing?
    || pc.LeaveReadPending? || pc.LeaveLock? || pc.LeaveTestWaiter? || pc.LeaveClearWaiter? || pc.LeaveDecrement?
    || pc.LeaveTestSignal? || pc.LeaveUnlock?
  }

  predicate RunningPc(pc: Pc) {
    || pc.ExecReadPending? || pc.ExecLock? || pc.ExecTestWaiter? || pc.ExecClearRunning? || pc.ExecUnlock?
    || pc.Executing?
  }

  /** Between being seen running and discounting itself in cpu_exec_end. */
  predicate Engaged(pc: Pc) {
    || pc.ExecReadPending? || pc.ExecLock? || pc.ExecTestWaiter? || pc.ExecUnlock? || pc.Executing?
    || pc.LeaveReadPending? || pc.LeaveLock? || pc.LeaveTestWaiter? || pc.LeaveClearWaiter?
  }

  /** How far the owner's scan has come, given its pc: vCPUs below this number have been looked at. */
  function Scanned(pc: Pc, n: nat): nat {
    match pc
    case StartScan(i, _) => i
    case StartMark(i, _) => i
    case _ => n
  }

  predicate Scanning(pc: Pc) {
    pc.StartScan? || pc.StartMark? || pc.StartPublish?
  }

  function Count(w: seq<bool>): nat {
    if w == [] then 0 else Count(w[..|w| - 1]) + if w[|w| - 1] then 1 else 0
  }

  lemma {:induction false} CountUpdate(w: seq<bool>, i: nat, b: bool)
    requires i < |w|
    ensures Count(w[i := b]) == Count(w) + (if b then 1 else 0) - (if w[i] then 1 else 0)
  {
    var n := |w| - 1;
    if i < n {
      CountUpdate(w[..n], i, b);
      assert w[i := b][..n] == w[..n][i := b];
    } else {
      assert w[i := b][..n] == w[..n];
    }
  }

  lemma {:induction false} CountPositive(w: seq<bool>, i: nat)
    requires i < |w| && w[i]
    ensures Count(w) > 0
  {
    if i < |w| - 1 {
      CountPositive(w[..|w| - 1], i);
    }
  }

  lemma {:induction false} CountWitness(w: seq<bool>) returns (i: nat)
    requires Count(w) > 0
    ensures i < |w| && w[i]
  {
    if w[|w| - 1] {
      i := |w| - 1;
    } else {
      i := CountWitness(w[..|w| - 1]);
    }
  }

  /** 1 while a vCPU has cleared has_waiter and not yet decremented pending_cpus. */
  function InFlight(s: State): nat {
    if s.lock.Some? && s.lock.value < |s.pc| && s.pc[s.lock.value] == LeaveDecrement then 1 else 0
  }

  predicate LockIs(s: State, pc: Pc) {
    s.lock.Some? && s.lock.value < |s.pc| && s.pc[s.lock.value] == pc
  }

  /** What holds of each thread. */
  ghost predicate ThreadInv(s: State, t: nat)
    requires t < |s.pc|
  {
    var pc := s.pc[t];
    && (Holds(pc) <==> s.lock == Some(t))
    && (Owns(pc) <==> s.owner == Some(t))
    && (CpuPc(pc) ==> t < |s.running|)
    && (pc.StartSetPending? || pc.ExecSetRunning? || pc.EndBroadcast? || pc.EndUnlock? ==> s.pendingCpus == 0)
    && (pc.StartIdleSleep? || pc.ExecIdleSleep? ==> s.pendingCpus != 0 || LockIs(s, EndBroadcast))
    && (pc.StartSleep? ==> s.pendingCpus > 1 || LockIs(s, LeaveTestSignal))
  }

  /** What holds of each vCPU. */
  ghost predicate CpuInv(s: State, c: nat)
    requires c < |s.running| == |s.hasWaiter| == |s.counted| == |s.discounted| <= |s.pc|
  {
    var pc := s.pc[c];
    && (s.running[c] <==> RunningPc(pc))
    && (s.hasWaiter[c] ==> Engaged(pc))
    && (pc.LeaveClearWaiter? ==> s.hasWaiter[c])
    && s.counted[c] == s.discounted[c] + (if s.hasWaiter[c] || pc.LeaveDecrement? then 1 else 0)
    && (s.owner.Some? && s.owner.value < |s.pc| && c < Scanned(s.pc[s.owner.value], |s.running|) ==>
          pc.Executing? || pc.ExecUnlock? ==> s.hasWaiter[c])
  }

  /** What holds of the thread that owns pending_cpus, and of the counter. */
  ghost predicate OwnerInv(s: State)
    requires |s.running| == |s.hasWaiter| <= |s.pc|
  {
    match s.owner
    case None => s.pendingCpus == 0 && Count(s.hasWaiter) == 0 && InFlight(s) == 0
    case Some(o) =>
      && o < |s.pc|
      && var pc := s.pc[o];
         && (Scanning(pc) ==> s.pendingCpus == 1 && pc.count == Count(s.hasWaiter) && InFlight(s) == 0)
         && (!Scanning(pc) ==> s.pendingCpus == 1 + Count(s.hasWaiter) + InFlight(s))
         && (pc.StartScan? || pc.StartMark? ==>
               pc.i <= |s.running| && forall c | pc.i <= c < |s.running| :: !s.hasWaiter[c])
         && (pc.StartMark? ==> pc.i < |s.running| && Engaged(s.pc[pc.i]))
         && (pc.StartUnlock? || pc.InExclusive? || pc.EndLock? || pc.EndReset? ==> s.pendingCpus == 1)
  }

  ghost predicate Inv(s: State) {
    && |s.running| == |s.hasWaiter| == |s.counted| == |s.discounted| <= |s.pc|
    && (s.lock.Some? ==> s.lock.value < |s.pc|)
    && OwnerInv(s)
    && (forall t | 0 <= t < |s.pc| :: ThreadInv(s, t))
    && (forall c | 0 <= c < |s.running| :: CpuInv(s, c))
  }

  lemma {:induction false} CountNone(w: seq<bool>)
    requires forall c | 0 <= c < |w| :: !w[c]
    ensures Count(w) == 0
  {
    if w != [] {
      CountNone(w[..|w| - 1]);
    }
  }

  lemma CountZero(w: seq<bool>)
    requires Count(w) == 0
    ensures forall c | 0 <= c < |w| :: !w[c]
  {
    forall c | 0 <= c < |w|
      ensures !w[c]
    {
      if w[c] {
        CountPositive(w, c);
      }
    }
  }

  lemma InitInv(s: State)
    requires Init(s)
    ensures Inv(s)
  {
    CountNone(s.hasWaiter);
  }

  /** While a thread is in its exclusive section no vCPU executes and no other thread is exclusive. */
  ghost predicate Excluded(s: State) {
    forall t | 0 <= t < |s.pc| && s.pc[t] == InExclusive ::
      && (forall c | 0 <= c < |s.pc| :: s.pc[c] != Executing)
      && (forall u | 0 <= u < |s.pc| && u != t :: s.pc[u] != InExclusive)
  }

  lemma InvExcludes(s: State)
    requires Inv(s)
    ensures Excluded(s)
  {
    forall t | 0 <= t < |s.pc| && s.pc[t] == InExclusive
      ensures forall c | 0 <= c < |s.pc| :: s.pc[c] != Executing
      ensures forall u | 0 <= u < |s.pc| && u != t :: s.pc[u] != InExclusive
    {
      assert ThreadInv(s, t);
      forall c | 0 <= c < |s.pc|
        ensures s.pc[c] != Executing
        ensures c != t ==> s.pc[c] != InExclusive
      {
        assert ThreadInv(s, c);
        if s.pc[c] == Executing {
          assert CpuInv(s, c);
          CountPositive(s.hasWaiter, c);
        }
      }
    }
  }

  /** The facts about the state before a step that its preservation proof draws on. */
  ghost predicate Local(s: State, t: nat, u: nat) {
    && |s.running| == |s.hasWaiter| == |s.counted| == |s.discounted| <= |s.pc| && t < |s.pc| && u < |s.pc|
    && (s.lock.Some? ==> s.lock.value < |s.pc|)
    && OwnerInv(s)
    && ThreadInv(s, t) && ThreadInv(s, u)
    && (s.owner.Some? ==> ThreadInv(s, s.owner.value))
    && (t < |s.running| ==> CpuInv(s, t) && (s.hasWaiter[t] ==> Count(s.hasWaiter) > 0))
    && (u < |s.running| ==> CpuInv(s, u) && (s.hasWaiter[u] ==> Count(s.hasWaiter) > 0))
  }

  ghost predicate Own(s: State, t: nat) {
    && Shape(s, t)
    && (s.lock.Some? ==> s.lock.value < |s.pc|)
    && (s.owner.Some? ==> s.pendingCpus > 0)
    && ThreadInv(s, t)
    && (t < |s.running| ==> CpuInv(s, t) && (s.hasWaiter[t] ==> s.pendingCpus > 0))
  }

  lemma Unpack(s: State, t: nat, u: nat)
    requires Inv(s) && t < |s.pc| && u < |s.pc|
    ensures Local(s, t, u)
  {
    if t < |s.running| && s.hasWaiter[t] { CountPositive(s.hasWaiter, t); }
    if u < |s.running| && s.hasWaiter[u] { CountPositive(s.hasWaiter, u); }
  }

  ghost predicate StepKeeps(s: State, s': State, u: nat) {
    && |s'.running| == |s'.hasWaiter| == |s'.counted| == |s'.discounted| == |s.running| <= |s'.pc| == |s.pc|
    && (s'.lock.Some? ==> s'.lock.value < |s'.pc|)
    && u < |s'.pc| && ThreadInv(s', u) && (u < |s'.running| ==> CpuInv(s', u))
  }

  /** A step that leaves the counter, the flags of other vCPUs and the ownership alone. */
  ghost predicate Quiet(s: State, t: nat, s': State) {
    && Shape(s, t) && |s'.pc| == |s.pc| && |s'.running| == |s.running|
    && s'.pc == s.pc[t := s'.pc[t]]
    && (t < |s.running| ==> s'.running == s.running[t := s'.running[t]])
    && (t >= |s.running| ==> s'.running == s.running)
    && s'.hasWaiter == s.hasWaiter && s'.counted == s.counted && s'.discounted == s.discounted
    && s'.pendingCpus == s.pendingCpus && s'.owner == s.owner
    && (s'.lock == s.lock || (s.lock == Some(t) && s'.lock == None) || (s.lock == None && s'.lock == Some(t)))
    && !s.pc[t].EndBroadcast? && !s.pc[t].LeaveDecrement? && !s.pc[t].LeaveTestSignal? && !s'.pc[t].LeaveDecrement?
    && Scanned(s.pc[t], |s.running|) == Scanned(s'.pc[t], |s.running|)
    && (Engaged(s.pc[t]) && s.pendingCpus != 0 && s.lock.Some? && s.lock != Some(t) ==> Engaged(s'.pc[t]))
  }

  /** A quiet step keeps what holds of the other threads. */
  lemma QuietOther(s: State, t: nat, s': State, u: nat)
    requires Local(s, t, u) && Quiet(s, t, s') && u != t
    ensures StepKeeps(s, s', u)
  {
  }

  /** A quiet step of another thread keeps what holds of the owner. */
  lemma QuietOwner(s: State, t: nat, s': State)
    requires Local(s, t, t) && Quiet(s, t, s') && s.owner != Some(t)
    ensures OwnerInv(s')
  {
  }

  lemma QuietEnter(s: State, t: nat, s': State)
    requires Shape(s, t) && ThreadInv(s, t) && EnterStep(s, t, s')
    ensures Quiet(s, t, s')
  {
  }

  lemma EnterThread(s: State, t: nat, s': State)
    requires Own(s, t) && EnterStep(s, t, s')
    ensures t < |s'.pc| && ThreadInv(s', t)
  {
  }

  lemma EnterCpu(s: State, t: nat, s': State)
    requires Own(s, t) && EnterStep(s, t, s') && t < |s.running|
    ensures Shape(s', t) && |s'.running| == |s.running| && CpuInv(s', t)
  {
  }

  lemma QuietWait(s: State, t: nat, s': State)
    requires Shape(s, t) && ThreadInv(s, t) && WaitStep(s, t, s')
    ensures Quiet(s, t, s')
  {
  }

  lemma WaitThread(s: State, t: nat, s': State)
    requires Own(s, t) && WaitStep(s, t, s')
    ensures t < |s'.pc| && ThreadInv(s', t)
  {
  }

  lemma WaitCpu(s: State, t: nat, s': State)
    requires Own(s, t) && WaitStep(s, t, s') && t < |s.running|
    ensures Shape(s', t) && |s'.running| == |s.running| && CpuInv(s', t)
  {
  }

  lemma QuietExec(s: State, t: nat, s': State)
    requires Shape(s, t) && ThreadInv(s, t) && ExecStep(s, t, s')
    ensures Quiet(s, t, s')
  {
  }

  lemma ExecThread(s: State, t: nat, s': State)
    requires Own(s, t) && ExecStep(s, t, s')
    ensures t < |s'.pc| && ThreadInv(s', t)
  {
  }

  lemma ExecCpu(s: State, t: nat, s': State)
    requires Own(s, t) && ExecStep(s, t, s') && t < |s.running|
    ensures Shape(s', t) && |s'.running| == |s.running| && CpuInv(s', t)
  {
  }

  lemma QuietLeave(s: State, t: nat, s': State)
    requires Shape(s, t) && ThreadInv(s, t) && LeaveStep(s, t, s')
    ensures Quiet(s, t, s')
  {
  }

  lemma LeaveThread(s: State, t: nat, s': State)
    requires Own(s, t) && LeaveStep(s, t, s')
    ensures t < |s'.pc| && ThreadInv(s', t)
  {
  }

  lemma LeaveCpu(s: State, t: nat, s': State)
    requires Own(s, t) && LeaveStep(s, t, s') && t < |s.running|
    ensures Shape(s', t) && |s'.running| == |s.running| && CpuInv(s', t)
  {
  }

  lemma WaitOwner(s: State, t: nat, s': State)
    requires Local(s, t, t) && WaitStep(s, t, s') && s.owner == Some(t)
    ensures OwnerInv(s')
  {
  }

  // The steps that write pending_cpus or has_waiter.

  /** What the noisy steps of t need to know to keep ThreadInv of u. */
  ghost predicate Pair(s: State, t: nat, u: nat) {
    && Shape(s, t) && u < |s.pc|
    && (s.lock.Some? ==> s.lock.value < |s.pc|)
    && (s.owner.Some? ==> s.pendingCpus > 0)
    && (s.pc[t].LeaveDecrement? ==> s.pendingCpus > 1)
    && ThreadInv(s, t) && ThreadInv(s, u)
  }

  lemma ScanOwner(s: State, t: nat, s': State)
    requires Local(s, t, t) && ScanStep(s, t, s')
    requires s.pc[t].StartScan? && s.pc[t].i < |s.running| ==> Local(s, t, s.pc[t].i)
    ensures Shape(s', t) && OwnerInv(s')
  {
    match s.pc[t]
    case StartSetPending => CountZero(s.hasWaiter);
    case StartMark(i, count) => CountUpdate(s.hasWaiter, i, true);
    case _ =>
  }

  lemma ScanThread(s: State, t: nat, s': State, u: nat)
    requires Pair(s, t, u) && ScanStep(s, t, s')
    ensures |s'.pc| == |s.pc| && ThreadInv(s', u)
  {
  }

  lemma ScanCpu(s: State, t: nat, s': State, u: nat)
    requires Local(s, t, u) && ScanStep(s, t, s') && u < |s.running|
    ensures Shape(s', u) && |s'.running| == |s.running| && CpuInv(s', u)
  {
  }

  lemma EndOwner(s: State, t: nat, s': State)
    requires Local(s, t, t) && EndStep(s, t, s')
    ensures Shape(s', t) && OwnerInv(s')
  {
  }

  lemma EndThread(s: State, t: nat, s': State, u: nat)
    requires Pair(s, t, u) && EndStep(s, t, s')
    ensures |s'.pc| == |s.pc| && ThreadInv(s', u)
  {
  }

  lemma EndCpu(s: State, t: nat, s': State, u: nat)
    requires Local(s, t, u) && EndStep(s, t, s') && u < |s.running|
    ensures Shape(s', u) && |s'.running| == |s.running| && CpuInv(s', u)
  {
  }

  lemma DiscountOwner(s: State, t: nat, s': State)
    requires Local(s, t, t) && DiscountStep(s, t, s')
    ensures Shape(s', t) && OwnerInv(s')
  {
    if s.pc[t] == LeaveClearWaiter {
      CountUpdate(s.hasWaiter, t, false);
    }
  }

  lemma DiscountThread(s: State, t: nat, s': State, u: nat)
    requires Pair(s, t, u) && DiscountStep(s, t, s')
    ensures |s'.pc| == |s.pc| && ThreadInv(s', u)
  {
  }

  lemma DiscountCpu(s: State, t: nat, s': State, u: nat)
    requires Local(s, t, u) && DiscountStep(s, t, s') && u < |s.running|
    ensures Shape(s', u) && |s'.running| == |s.running| && CpuInv(s', u)
  {
  }

  /** A step keeps the facts about thread u and, if it is a vCPU, about its vCPU. */
  lemma StepThread(s: State, t: nat, s': State, u: nat)
    requires Inv(s) && t < |s.pc| && u < |s.pc| && Step(s, t, s')
    requires forall v: nat :: !SignalStep(s, t, v, s')
    ensures StepKeeps(s, s', u)
  {
    Unpack(s, t, u);
    if EnterStep(s, t, s') {
      QuietEnter(s, t, s');
      if u == t { EnterThread(s, t, s'); if t < |s.running| { EnterCpu(s, t, s'); } } else { QuietOther(s, t, s', u); }
    } else if WaitStep(s, t, s') {
      QuietWait(s, t, s');
      if u == t { WaitThread(s, t, s'); if t < |s.running| { WaitCpu(s, t, s'); } } else { QuietOther(s, t, s', u); }
    } else if ExecStep(s, t, s') {
      QuietExec(s, t, s');
      if u == t { ExecThread(s, t, s'); ExecCpu(s, t, s'); } else { QuietOther(s, t, s', u); }
    } else if LeaveStep(s, t, s') {
      QuietLeave(s, t, s');
      if u == t { LeaveThread(s, t, s'); LeaveCpu(s, t, s'); } else { QuietOther(s, t, s', u); }
    } else if ScanStep(s, t, s') {
      ScanThread(s, t, s', u);
      if u < |s.running| { ScanCpu(s, t, s', u); }
    } else if EndStep(s, t, s') {
      EndThread(s, t, s', u);
      if u < |s.running| { EndCpu(s, t, s', u); }
    } else {
      DiscountThread(s, t, s', u);
      if u < |s.running| { DiscountCpu(s, t, s', u); }
    }
  }

  lemma StepOwner(s: State, t: nat, s': State)
    requires Inv(s) && t < |s.pc| && Step(s, t, s')
    requires forall v: nat :: !SignalStep(s, t, v, s')
    ensures |s'.running| == |s'.hasWaiter| <= |s'.pc| && OwnerInv(s')
  {
    Unpack(s, t, t);
    if EnterStep(s, t, s') {
      QuietEnter(s, t, s');
      QuietOwner(s, t, s');
    } else if WaitStep(s, t, s') {
      QuietWait(s, t, s');
      if s.owner == Some(t) { WaitOwner(s, t, s'); } else { QuietOwner(s, t, s'); }
    } else if ExecStep(s, t, s') {
      QuietExec(s, t, s');
      QuietOwner(s, t, s');
    } else if LeaveStep(s, t, s') {
      QuietLeave(s, t, s');
      QuietOwner(s, t, s');
    } else if ScanStep(s, t, s') {
      if s.pc[t].StartScan? && s.pc[t].i < |s.running| { Unpack(s, t, s.pc[t].i); }
      ScanOwner(s, t, s');
    } else if EndStep(s, t, s') {
      EndOwner(s, t, s');
    } else {
      DiscountOwner(s, t, s');
    }
  }

  /** A step that signals nobody keeps the invariant. */
  lemma SilentInv(s: State, t: nat, s': State)
    requires Inv(s) && t < |s.pc| && Step(s, t, s')
    requires forall v: nat :: !SignalStep(s, t, v, s')
    ensures Inv(s')
  {
    StepOwner(s, t, s');
    StepThread(s, t, s', t);
    forall u | 0 <= u < |s'.pc|
      ensures ThreadInv(s', u)
    {
      StepThread(s, t, s', u);
    }
    forall c | 0 <= c < |s'.running|
      ensures CpuInv(s', c)
    {
      StepThread(s, t, s', c);
    }
  }

  /** Signalling is the sleeper's wakeup followed by the signaller's step with nobody left asleep. */
  lemma SignalInv(s: State, t: nat, u: nat, s': State)
    requires Inv(s) && t < |s.pc| && SignalStep(s, t, u, s')
    ensures Inv(s')
  {
    var mid := At(s, u, StartWake);
    assert WaitStep(s, u, mid);
    SilentInv(s, u, mid);
    forall v | 0 <= v < |mid.pc|
      ensures mid.pc[v] != StartSleep
    {
      assert ThreadInv(s, v) && ThreadInv(s, u);
    }
    assert DiscountStep(mid, t, s');
    SilentInv(mid, t, s');
  }

  /** Every step of every thread keeps the invariant. */
  lemma StepInv(s: State, t: nat, s': State)
    requires Inv(s) && t < |s.pc| && Step(s, t, s')
    ensures Inv(s')
  {
    if u: nat :| SignalStep(s, t, u, s') {
      SignalInv(s, t, u, s');
    } else {
      SilentInv(s, t, s');
    }
  }

  ghost predicate Next(s: State, s': State) {
    exists t: nat | t < |s.pc| :: Shape(s, t) && Step(s, t, s')
  }

  /** A run of any number of threads and vCPUs from the initial state, in any interleaving. */
  ghost predicate Run(r: seq<State>) {
    |r| > 0 && Init(r[0]) && forall k | 0 < k < |r| :: Next(r[k - 1], r[k])
  }

  lemma {:induction false} RunInv(r: seq<State>)
    requires Run(r)
    ensures Inv(r[|r| - 1])
  {
    var n := |r| - 1;
    if n == 0 {
      InitInv(r[0]);
    } else {
      RunInv(r[..n]);
      var t: nat :| t < |r[n - 1].pc| && Shape(r[n - 1], t) && Step(r[n - 1], t, r[n]);
      StepInv(r[n - 1], t, r[n]);
    }
  }

  /** Mutual exclusion over every interleaving. */
  lemma MutualExclusion(r: seq<State>)
    requires Run(r)
    ensures Excluded(r[|r| - 1])
  {
    RunInv(r);
    InvExcludes(r[|r| - 1]);
  }

  /**
    Exact counting.  Once the scan is over pending_cpus is one more than the
    number of vCPUs that have has_waiter set or have just cleared it; and each
    vCPU has been discounted as often as it has been counted, but for the count
    that it is still to pay back.
   */
  ghost predicate Counted(s: State) {
    && |s.running| == |s.hasWaiter| == |s.counted| == |s.discounted| <= |s.pc|
    && (s.owner.None? ==> s.pendingCpus == 0 && s.counted == s.discounted)
    && (s.owner.Some? && s.owner.value < |s.pc| && !Scanning(s.pc[s.owner.value]) ==>
          s.pendingCpus == 1 + Count(s.hasWaiter) + InFlight(s))
    && forall c | 0 <= c < |s.running| ::
         s.counted[c] == s.discounted[c] + if s.hasWaiter[c] || s.pc[c] == LeaveDecrement then 1 else 0
  }

  lemma ExactCounting(r: seq<State>)
    requires Run(r)
    ensures Counted(r[|r| - 1])
  {
    RunInv(r);
    var s := r[|r| - 1];
    forall c | 0 <= c < |s.running|
      ensures s.counted[c] == s.discounted[c] + if s.hasWaiter[c] || s.pc[c] == LeaveDecrement then 1 else 0
    {
      assert CpuInv(s, c);
    }
    if s.owner.None? {
      CountZero(s.hasWaiter);
      forall c | 0 <= c < |s.running|
        ensures s.counted[c] == s.discounted[c]
      {
        assert CpuInv(s, c) && ThreadInv(s, c);
      }
    }
  }

  /** A starter asleep on exclusive_cond has a vCPU that is still to wake it. */
  ghost predicate Waker(s: State, c: nat) {
    && c < |s.hasWaiter| && c < |s.pc|
    && ((s.hasWaiter[c] && Engaged(s.pc[c])) || s.pc[c] == LeaveDecrement || s.pc[c] == LeaveTestSignal)
  }

  lemma NoLostWakeup(r: seq<State>, t: nat) returns (c: nat)
    requires Run(r) && t < |r[|r| - 1].pc| && r[|r| - 1].pc[t] == StartSleep
    ensures Waker(r[|r| - 1], c)
  {
    RunInv(r);
    var s := r[|r| - 1];
    assert ThreadInv(s, t);
    if LockIs(s, LeaveTestSignal) || InFlight(s) == 1 {
      c := s.lock.value;
      assert ThreadInv(s, c);
    } else {
      c := CountWitness(s.hasWaiter);
      assert CpuInv(s, c);
    }
  }

  /** Nothing can move but threads that choose to enter or leave, and waits that return unsignalled. */
  predicate Resting(s: State, pc: Pc) {
    || pc.Outside? || pc.Executing? || pc.InExclusive?
    || pc.StartSleep? || pc.StartIdleSleep? || pc.ExecIdleSleep?
    || (s.lock.Some?
        && (pc.StartLock? || pc.StartIdleWake? || pc.StartWake? || pc.EndLock? || pc.ExecLock? || pc.ExecIdleWake?
            || pc.LeaveLock?))
  }

  ghost predicate Quiescent(s: State) {
    forall t | 0 <= t < |s.pc| :: Resting(s, s.pc[t])
  }

  /** A thread that only rests without being asleep on a condition. */
  predicate Active(pc: Pc) {
    pc.Executing? || pc.InExclusive?
  }

  /**
    No deadlock: when nothing moves by itself, the lock is free, a starter
    asleep has a counted vCPU still executing, and every idle sleeper waits for
    a thread that is exclusive or is itself such a starter.
   */
  lemma NoDeadlock(r: seq<State>, t: nat) returns (c: nat)
    requires Run(r) && Quiescent(r[|r| - 1]) && t < |r[|r| - 1].pc|
    requires var pc := r[|r| - 1].pc[t]; !pc.Outside? && !Active(pc)
    ensures var s := r[|r| - 1];
            && s.lock.None? && c < |s.pc| && Active(s.pc[c])
            && (s.pc[t].StartSleep? ==> c < |s.hasWaiter| && s.hasWaiter[c] && s.pc[c].Executing?)
            && (s.pc[t].StartSleep? || s.pc[t].StartIdleSleep? || s.pc[t].ExecIdleSleep?)
  {
    RunInv(r);
    var s := r[|r| - 1];
    if s.lock.Some? {
      assert ThreadInv(s, s.lock.value);
    }
    assert ThreadInv(s, t);
    var o := s.owner.value;
    assert ThreadInv(s, o);
    if s.pc[o].InExclusive? {
      c := o;
    } else {
      c := CountWitness(s.hasWaiter);
      assert CpuInv(s, c);
    }
  }
}
