/** The virtual clocks of qemu/cpus.c: host time while the machine runs, and counted instructions. */
module Clocks {
  import opened Basics

  // Shifts.

  /** x << s */
  function Shl(x: int, s: nat): int {
    if s == 0 then x else 2 * Shl(x, s - 1)
  }

  /** x >> s */
  function Shr(x: nat, s: nat): nat {
    if s == 0 then x else Shr(x / 2, s - 1)
  }

  lemma {:induction false} ShlSum(a: int, b: int, s: nat)
    ensures Shl(a + b, s) == Shl(a, s) + Shl(b, s)
  {
    if s > 0 {
      ShlSum(a, b, s - 1);
    }
  }

  lemma {:induction false} ShlMono(a: int, b: int, s: nat)
    requires a <= b
    ensures Shl(a, s) <= Shl(b, s)
  {
    if s > 0 {
      ShlMono(a, b, s - 1);
    }
  }

  lemma {:induction false} ShrBounds(x: nat, s: nat)
    ensures Shl(Shr(x, s), s) <= x < Shl(Shr(x, s), s) + Shl(1, s)
  {
    if s > 0 {
      ShrBounds(x / 2, s - 1);
    }
  }

  /** qemu_icount_round */
  function IcountRound(count: nat, shift: nat): nat
    requires Shl(1, shift) >= 1
  {
    Shr(count + Shl(1, shift) - 1, shift)
  }

  lemma {:induction false} ShlOne(s: nat)
    ensures Shl(1, s) >= 1
  {
    if s > 0 {
      ShlOne(s - 1);
    }
  }

  /** The rounded count takes at least the given time, and less than one instruction more. */
  lemma RoundUp(count: nat, shift: nat)
    requires Shl(1, shift) >= 1
    ensures count <= Shl(IcountRound(count, shift), shift) < count + Shl(1, shift)
  {
    ShrBounds(count + Shl(1, shift) - 1, shift);
  }

  // Time while the machine runs.

  /** A call that starts or stops the clock, at a time of the host's clock. */
  datatype Switch = On(time: int) | Off(time: int)

  predicate Running(h: seq<Switch>) {
    h != [] && h[|h| - 1].On?
  }

  /** The host time between consecutive calls, where the clock was on. */
  function Spent(h: seq<Switch>): int {
    if h == [] then 0
    else
      var n := |h| - 1;
      Spent(h[..n]) + if Running(h[..n]) then h[n].time - h[n - 1].time else 0
  }

  /** The total host time spent enabled, up to now. */
  function Elapsed(h: seq<Switch>, now: int): int {
    Spent(h) + if Running(h) then now - h[|h| - 1].time else 0
  }

  lemma SpentMore(h: seq<Switch>, s: Switch)
    ensures Spent(h + [s]) == Spent(h) + if Running(h) then s.time - h[|h| - 1].time else 0
  {
    assert (h + [s])[..|h|] == h;
  }

  ghost predicate Sorted(s: seq<int>) {
    forall i, j | 0 <= i < j < |s| :: s[i] <= s[j]
  }

  /**
    TimersState, without icount.  The host's clock and cycle counter are
    arguments of each call.  history and returned only record what happened.
   */
  class VmClock {
    var ticksPrev: int
    var ticksOffset: int
    var clockOffset: int
    var enabled: bool
    ghost var history: seq<Switch>
    ghost var returned: seq<int>

    ghost predicate Valid()
      reads this
    {
      && enabled == Running(history)
      && clockOffset == (if enabled then Spent(history) - history[|history| - 1].time else Spent(history))
      && Sorted(returned) && forall i | 0 <= i < |returned| :: returned[i] <= ticksPrev
    }

    constructor ()
      ensures Valid() && history == [] && returned == [] && !enabled
    {
      ticksPrev, ticksOffset, clockOffset, enabled, history, returned := 0, 0, 0, false, [], [];
    }

    /** cpu_get_clock: the host time spent enabled. */
    method GetClock(now: int) returns (time: int)
      requires Valid()
      ensures time == Elapsed(history, now)
    {
      time := clockOffset;
      if enabled {
        time := time + now;
      }
    }

    /** cpu_enable_ticks */
    method EnableTicks(hostTicks: int, now: int)
      requires Valid()
      modifies this
      ensures Valid() && enabled && history == old(history) + [On(now)] && returned == old(returned)
      ensures ticksPrev == old(ticksPrev)
    {
      if !enabled {
        ticksOffset := ticksOffset - hostTicks;
        clockOffset := clockOffset - now;
        enabled := true;
      }
      SpentMore(history, On(now));
      history := history + [On(now)];
    }

    /** cpu_disable_ticks */
    method DisableTicks(hostTicks: int, now: int)
      requires Valid()
      modifies this
      ensures Valid() && !enabled && history == old(history) + [Off(now)] && returned == old(returned)
      ensures ticksPrev == old(ticksPrev)
    {
      if enabled {
        ticksOffset := ticksOffset + hostTicks;
        clockOffset := GetClock(now);
        enabled := false;
      }
      SpentMore(history, Off(now));
      history := history + [Off(now)];
    }

    /** cpu_get_ticks: never less than any value returned before, whatever the host's counter does. */
    method GetTicks(hostTicks: int) returns (ticks: int)
      requires Valid()
      modifies this
      ensures Valid() && returned == old(returned) + [ticks] && history == old(history) && enabled == old(enabled)
      ensures clockOffset == old(clockOffset)
      ensures var raw := old(ticksOffset) + if enabled then hostTicks else 0;
              ticks == if raw > old(ticksPrev) then raw else old(ticksPrev)
      ensures ticks == ticksOffset + if enabled then hostTicks else 0
    {
      ticks := ticksOffset;
      if enabled {
        ticks := ticks + hostTicks;
      }
      if ticksPrev > ticks {
        ticksOffset := ticksOffset + (ticksPrev - ticks);
        ticks := ticksPrev;
      }
      ticksPrev := ticks;
      returned := returned + [ticks];
    }
  }

  // Counted instructions.

  const MAX_ICOUNT_SHIFT: nat := 10
  const ICOUNT_WOBBLE: int := 100000000
  const INT32_MAX: nat := 0x7FFF_FFFF

  /** The deadline as tcg_get_icount_limit clips it; negative stands for none. */
  function Clipped(deadline: int): nat {
    if deadline < 0 || deadline > INT32_MAX then INT32_MAX else deadline
  }

  datatype Step =
    | StepPrepare(deadline: int) | StepExecute(n: nat) | StepRead(inVcpu: bool) | StepRefill | StepProcess
    | StepAdjust(curTime: int, inVcpu: bool)

  /**
    The instruction counter: the shared qemu_icount, bias and shift, and the
    counters of the vCPU that the TCG thread runs.  executed is the number of
    instructions that vCPUs have executed.
   */
  class Icount {
    var qemuIcount: int
    var bias: int
    var shift: nat
    var lastDelta: int
    var budget: int
    var low: int
    var extra: int
    ghost var executed: nat

    /** Every executed instruction is in qemu_icount or still in the budget. */
    ghost predicate Valid()
      reads this
    {
      && executed == qemuIcount + (budget - (low + extra))
      && low + extra <= budget && 0 <= low <= 0xffff && 0 <= extra
      && shift <= MAX_ICOUNT_SHIFT
    }

    /** Virtual time as it stands in the shared counters. */
    function VirtualTime(): int
      reads this
    {
      bias + Shl(qemuIcount, shift)
    }

    constructor (shift: nat)
      requires shift <= MAX_ICOUNT_SHIFT
      ensures Valid() && executed == 0 && this.shift == shift && VirtualTime() == 0 && budget == low == extra == 0
    {
      this.shift := shift;
      qemuIcount, bias, lastDelta, budget, low, extra, executed := 0, 0, 0, 0, 0, 0, 0;
      new;
      ShlZero(shift);
    }

    /** cpu_update_icount */
    method UpdateIcount()
      requires Valid()
      modifies this`qemuIcount, this`budget
      ensures Valid() && qemuIcount == executed && budget == low + extra
      ensures VirtualTime() == old(VirtualTime()) + Shl(executed - old(qemuIcount), shift) >= old(VirtualTime())
    {
      var n := budget - (low + extra);
      ShlSum(qemuIcount, n, shift);
      ShlZero(shift);
      ShlMono(0, n, shift);
      budget := budget - n;
      qemuIcount := qemuIcount + n;
    }

    /** cpu_get_icount_raw; inVcpu says whether the reader is the running vCPU. */
    method GetIcountRaw(inVcpu: bool) returns (icount: int)
      requires Valid()
      modifies this`qemuIcount, this`budget
      ensures VirtualTime() >= old(VirtualTime())
      ensures Valid() && icount == qemuIcount && (inVcpu ==> icount == executed)
      ensures !inVcpu ==> qemuIcount == old(qemuIcount) && budget == old(budget)
    {
      if inVcpu {
        UpdateIcount();
      }
      return qemuIcount;
    }

    /** prepare_icount_for_run */
    method Prepare(deadline: int) returns (ghost limit: nat)
      requires Valid() && low == 0 && extra == 0 && budget == 0
      modifies this`budget, this`low, this`extra
      ensures Valid() && low + extra == budget == limit && low == Min(0xffff, limit)
      ensures Clipped(deadline) <= Shl(limit, shift) < Clipped(deadline) + Shl(1, shift)
    {
      ShlOne(shift);
      RoundUp(Clipped(deadline), shift);
      budget := IcountRound(Clipped(deadline), shift);
      limit := budget;
      low := Min(0xffff, budget);
      extra := budget - low;
    }

    /** A translated block executes n instructions, which the decrementer allows. */
    method Execute(n: nat)
      requires Valid() && n <= low
      modifies this`low, this`executed
      ensures Valid() && executed == old(executed) + n && low == old(low) - n
    {
      low := low - n;
      executed := executed + n;
    }

    /** cpu_loop_exec_tb where the decrementer has run out. */
    method Refill()
      requires Valid()
      modifies this`qemuIcount, this`budget, this`low, this`extra
      ensures Valid() && qemuIcount == executed && low + extra == old(low + extra) && low == Min(0xffff, low + extra)
      ensures VirtualTime() == old(VirtualTime()) + Shl(executed - old(qemuIcount), shift) >= old(VirtualTime())
    {
      UpdateIcount();
      low := Min(0xffff, budget);
      extra := budget - low;
    }

    /** process_icount_data */
    method Process()
      requires Valid()
      modifies this`qemuIcount, this`budget, this`low, this`extra
      ensures Valid() && qemuIcount == executed && low == 0 && extra == 0 && budget == 0
      ensures VirtualTime() == old(VirtualTime()) + Shl(executed - old(qemuIcount), shift) >= old(VirtualTime())
    {
      UpdateIcount();
      low, extra, budget := 0, 0, 0;
    }

    /**
      icount_adjust: the rate falls by one step where virtual time runs too far ahead
      of the clock, rises by one where it falls too far behind, and virtual time does not move.
     */
    method Adjust(curTime: int, inVcpu: bool)
      requires Valid()
      modifies this
      ensures Valid() && executed == old(executed) && low == old(low) && extra == old(extra)
      ensures lastDelta == VirtualTime() - curTime
      ensures shift + 1 == old(shift) <==>
                lastDelta > 0 && old(lastDelta) + ICOUNT_WOBBLE < 2 * lastDelta && old(shift) > 0
      ensures shift == old(shift) + 1 <==>
                lastDelta < 0 && old(lastDelta) - ICOUNT_WOBBLE > 2 * lastDelta && old(shift) < MAX_ICOUNT_SHIFT
      ensures shift == old(shift) || shift + 1 == old(shift) || shift == old(shift) + 1
      ensures VirtualTime() == old(bias) + Shl(qemuIcount, old(shift)) >= old(VirtualTime())
              && qemuIcount == if inVcpu then executed else old(qemuIcount)
    {
      var raw := GetIcountRaw(inVcpu);
      var curIcount := bias + Shl(raw, shift);
      var delta := curIcount - curTime;
      if delta > 0 && lastDelta + ICOUNT_WOBBLE < delta * 2 && shift > 0 {
        shift := shift - 1;
      }
      if delta < 0 && lastDelta - ICOUNT_WOBBLE > delta * 2 && shift < MAX_ICOUNT_SHIFT {
        shift := shift + 1;
      }
      lastDelta := delta;
      bias := curIcount - Shl(qemuIcount, shift);
    }

    /**
      A whole slice: the vCPU executes all that it was given.  Virtual time reaches
      the clipped deadline, by less than one instruction too far.
     */
    method RunSlice(deadline: int) returns (ghost limit: nat)
      requires Valid() && low == 0 && extra == 0 && budget == 0
      modifies this
      ensures Valid() && low == 0 && extra == 0 && budget == 0 && executed == old(executed) + limit
      ensures shift == old(shift)
      ensures Clipped(deadline) <= VirtualTime() - old(VirtualTime()) < Clipped(deadline) + Shl(1, shift)
    {
      limit := Prepare(deadline);
      while low + extra > 0
        invariant Valid() && shift == old(shift) && bias == old(bias)
        invariant executed + low + extra == old(executed) + limit
        decreases low + extra
      {
        if low == 0 {
          Refill();
        }
        Execute(low);
      }
      Process();
      ShlSum(old(qemuIcount), limit, shift);
    }

    /**
      Any sequence of steps: every read by the vCPU gives the number of executed
      instructions, and time never goes back.
     */
    method Run(steps: seq<Step>)
      requires Valid()
      modifies this
      ensures Valid() && VirtualTime() >= old(VirtualTime())
    {
      for i := 0 to |steps|
        invariant Valid() && VirtualTime() >= old(VirtualTime())
      {
        match steps[i]
        case StepPrepare(deadline) =>
          if low == 0 && extra == 0 && budget == 0 {
            var _ := Prepare(deadline);
          }
        case StepExecute(n) =>
          if n <= low {
            Execute(n);
          }
        case StepRead(inVcpu) =>
          var icount := GetIcountRaw(inVcpu);
          assert inVcpu ==> icount == executed;
        case StepRefill => Refill();
        case StepProcess => Process();
        case StepAdjust(curTime, inVcpu) => Adjust(curTime, inVcpu);
      }
    }
  }

  lemma {:induction false} ShlZero(s: nat)
    ensures Shl(0, s) == 0
  {
    if s > 0 {
      ShlZero(s - 1);
    }
  }
}
