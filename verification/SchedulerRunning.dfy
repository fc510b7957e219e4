/** Who has the processor after a check, stated on the table, the rings and the plan alone. */
module SchedulerRunning {
  import opened Scheduler
  import opened SchedulerInvariant
  import opened SchedulerSlots
  import opened SchedulerFlags
  import opened SchedulerClock
  import opened SchedulerTimetable

  // ----- What a check leaves behind -----

  /** No live process carries the number n. */
  ghost predicate Nobody(procs: seq<Process>, n: int) {
    forall i | 0 <= i < |procs| :: procs[i].pid != 0 ==> procs[i].n != n
  }

  /** pid is that of the first live process in the table that carries the number n. */
  ghost predicate Carries(procs: seq<Process>, n: int, pid: nat) {
    exists i :: && 0 <= i < |procs| && procs[i].pid == pid != 0 && procs[i].n == n
                && Nobody(procs[..i], n)
  }

  /** The user of idle time: the front of the sporadic ring, or the idle process if that ring is empty. */
  function IdleUser(plan: Plan, sporadic: seq<nat>): nat {
    if sporadic == [] then plan.idle else sporadic[0]
  }

  /** The process of name n runs, or the user of idle time if there is none. */
  ghost predicate OwnerRuns(plan: Plan, n: int, k: Kernel) {
    Carries(k.procs, n, k.current) || (Nobody(k.procs, n) && k.current == IdleUser(plan, k.sporadic))
  }

  /** From k to k' the process that has lost the processor has lost its flag as well, and the table is
      otherwise the same. */
  ghost predicate FlagGone(k: Kernel, k': Kernel) {
    && |k'.procs| == |k.procs|
    && forall i | 0 <= i < |k.procs| ::
         k'.procs[i] == if k'.current != k.current && k.current == k.procs[i].pid != 0
                        then k.procs[i].(yielded := false) else k.procs[i]
  }

  /** The time that the plan has given to its current slot when a check tests it: a device that has just
      yielded accounts for the debt, anybody else for the time since the last change. */
  ghost function Spent(k: Kernel): int {
    if DeviceRunning(k) then k.debt else k.tick - k.lastChange
  }

  /** The check leaves the slot with its time not yet up. */
  ghost predicate SlotGoesOn(plan: Plan, k: Kernel, k': Kernel)
    requires WellFormed(plan, k) && k.index != INVALID_IDX
  {
    && k'.index == k.index && k'.lastChange == k'.tick - Spent(k)
    && if DeviceRunning(k) then OwnerRuns(plan, plan.names[k.index], k')
       else k'.current == if k.current == 0 || GaveUp(k) then IdleUser(plan, k'.sporadic) else k.current
  }

  /** The check begins the next slot. */
  ghost predicate SlotBegins(plan: Plan, v: Variant, k: Kernel, k': Kernel)
    requires WellFormed(plan, k) && k.index != INVALID_IDX
  {
    && k'.index == (if k.index + 1 == |plan.names| then 0 else k.index + 1) && k'.lastChange == k'.tick
    && if GaveUp(k) && !v.forgetOnChange then k'.current == IdleUser(plan, k'.sporadic)
       else OwnerRuns(plan, plan.names[k'.index], k')
  }

  /** The time-up test applied to the time that the slot has been given. */
  ghost predicate Timed(plan: Plan, v: Variant, k: Kernel, k': Kernel)
    requires WellFormed(plan, k) && k.index != INVALID_IDX
  {
    if plan.maxes[k.index] < Spent(k) then SlotBegins(plan, v, k, k') else SlotGoesOn(plan, k, k')
  }

  /** What a check that does not abort leaves behind, once the due devices are queued in k. */
  ghost predicate CheckLeaves(plan: Plan, v: Variant, k: Kernel, k': Kernel)
    requires WellFormed(plan, k)
  {
    && FlagGone(k, k')
    && k' == k.(procs := k'.procs, sporadic := k'.sporadic, index := k'.index, lastChange := k'.lastChange,
                debt := k'.debt, current := k'.current)
    && if k.devices != [] && k.devices[0] != k.current then
         && k'.current == k.devices[0] && k'.lastChange == k.tick && k'.debt == k.debt + (k.tick - k.lastChange)
         && k'.index == k.index && k'.sporadic == k.sporadic
       else if k.index == INVALID_IDX then
         && k'.index == 0 && k'.lastChange == k.tick && k'.debt == k.debt && k'.sporadic == k.sporadic
         && OwnerRuns(plan, plan.names[0], k')
       else if DeviceRunning(k) && !Flagged(k.procs, k.current) then k' == k
       else
         && k'.debt == (if DeviceRunning(k) then 0 else k.debt)
         && k'.sporadic == (if GaveUp(k) && LiveAt(k.procs, k.current, Sporadic) && k.sporadic != []
                            then k.sporadic[1..] + [k.sporadic[0]] else k.sporadic)
         && Timed(plan, v, k, k')
  }

  // ----- The check does that -----

  lemma LookupIs(procs: seq<Process>, n: int)
    ensures if PidFromName(procs, n) == 0 then Nobody(procs, n) else Carries(procs, n, PidFromName(procs, n))
  {
    var i := NamedFrom(procs, n, 0);
    if n != IDLE && i < |procs| {
      assert Nobody(procs[..i], n);
    }
  }

  lemma LookupSame(a: seq<Process>, b: seq<Process>, n: int, pid: nat)
    requires SameButFlags(a, b)
    ensures Nobody(a, n) ==> Nobody(b, n)
    ensures Carries(a, n, pid) ==> Carries(b, n, pid)
  {
    forall i | 0 <= i < |b|
      ensures b[i].pid == a[i].pid && b[i].n == a[i].n
    {
    }
    if i :| 0 <= i < |a| && a[i].pid == pid != 0 && a[i].n == n && Nobody(a[..i], n) {
      forall j | 0 <= j < i
        ensures b[..i][j].pid != 0 ==> b[..i][j].n != n
      {
        assert a[..i][j].pid == b[j].pid;
      }
      assert Nobody(b[..i], n);
    }
  }

  lemma SwitchFlagGone(k: Kernel, pid: nat)
    requires TableOk(k) && Switch(k, pid).Running? && pid != 0
    ensures FlagGone(k, Switch(k, pid).k)
  {
  }

  lemma DispatchFlagGone(plan: Plan, k: Kernel, next: nat, gaveUp: bool)
    requires TableOk(k) && SporadicOk(k) && plan.idle != 0 && Dispatch(plan, k, next, gaveUp).Running?
    ensures FlagGone(k, Dispatch(plan, k, next, gaveUp).k)
  {
    hide Switch, FlagGone;
    if k.sporadic != [] {
      assert k.sporadic[0] in k.sporadic;
    }
    SwitchFlagGone(k, if next != 0 && !gaveUp then next else IdleUser(plan, k.sporadic));
  }

  /** Dispatching the process of a name. */
  lemma DispatchOwner(plan: Plan, k: Kernel)
    requires Core(plan, k) && FlagsOk(k) && k.index != INVALID_IDX
    requires k.current == INVALIDPID || LivePid(k.procs, k.current)
    ensures var o := Dispatch(plan, k, PidFromName(k.procs, plan.names[k.index]), false);
            && o.Running? && FlagGone(k, o.k) && o.k == k.(procs := o.k.procs, current := o.k.current)
            && OwnerRuns(plan, plan.names[k.index], o.k)
  {
    hide Dispatch, FlagGone, Nobody, Carries, Switch;
    var n := plan.names[k.index];
    var named := PidFromName(k.procs, n);
    LookupIs(k.procs, n);
    if named != INVALIDPID {
      NamedIsPeriodic(plan, k, n);
      PeriodicOnly(k, named);
    }
    DispatchOk(plan, k, named, false);
    DispatchFlagGone(plan, k, named, false);
    LookupSame(k.procs, Dispatch(plan, k, named, false).k.procs, n, named);
  }

  /** Dispatching the process next, or the user of idle time. */
  lemma DispatchNextIs(plan: Plan, k: Kernel, next: nat, gaveUp: bool)
    requires Core(plan, k) && FlagsOk(k)
    requires k.current == INVALIDPID || LivePid(k.procs, k.current)
    requires next != INVALIDPID && !gaveUp ==> MayRun(plan, k, next) && !LiveAt(k.procs, next, Device)
    ensures var o := Dispatch(plan, k, next, gaveUp);
            && o.Running? && FlagGone(k, o.k) && o.k == k.(procs := o.k.procs, current := o.k.current)
            && o.k.current == if next == 0 || gaveUp then IdleUser(plan, k.sporadic) else next
  {
    hide Dispatch, FlagGone;
    DispatchOk(plan, k, next, gaveUp);
    DispatchFlagGone(plan, k, next, gaveUp);
  }

  /** The time-up test: what SlotCheck does, without the functions it calls. */
  ghost predicate Tested(plan: Plan, v: Variant, k: Kernel, age: int, next: nat, gaveUp: bool, o: Outcome)
    requires WellFormed(plan, k) && k.index != INVALID_IDX
  {
    && o.Running? && FlagGone(k, o.k)
    && o.k == k.(procs := o.k.procs, current := o.k.current, index := o.k.index, lastChange := o.k.lastChange)
    && if plan.maxes[k.index] < age then
         && o.k.index == (if k.index + 1 == |plan.names| then 0 else k.index + 1) && o.k.lastChange == k.tick
         && if gaveUp && !v.forgetOnChange then o.k.current == IdleUser(plan, k.sporadic)
            else OwnerRuns(plan, plan.names[o.k.index], o.k)
       else
         && o.k.index == k.index && o.k.lastChange == k.lastChange
         && o.k.current == if next == 0 || gaveUp then IdleUser(plan, k.sporadic) else next
  }

  lemma SlotCheckTests(plan: Plan, v: Variant, k: Kernel, age: int, next: nat, gaveUp: bool)
    requires Core(plan, k) && FlagsOk(k) && k.index != INVALID_IDX
    requires k.current == INVALIDPID || LivePid(k.procs, k.current)
    requires next != INVALIDPID && !gaveUp ==> MayRun(plan, k, next) && !LiveAt(k.procs, next, Device)
    ensures Tested(plan, v, k, age, next, gaveUp, SlotCheck(plan, v, k, age, next, gaveUp))
  {
    hide Dispatch, OwnerRuns;
    if plan.maxes[k.index] < age {
      var k1 := k.(lastChange := k.tick, index := NextSlot(plan, k.index));
      CoreIgnoresSlot(plan, k, k1);
      var named := PidFromName(k1.procs, plan.names[k1.index]);
      if gaveUp && !v.forgetOnChange {
        DispatchNextIs(plan, k1, named, true);
      } else {
        DispatchOwner(plan, k1);
      }
    } else {
      DispatchNextIs(plan, k, next, gaveUp);
    }
  }

  /** The check of a launched plan after its device i has yielded. */
  lemma DeviceDoneLeaves(plan: Plan, v: Variant, k: Kernel, i: nat)
    requires Ready(plan, k) && k.index != INVALID_IDX && (k.devices == [] || k.devices[0] == k.current)
    requires i == SlotOf(k.procs, k.current) < |k.procs| && k.current != INVALIDPID
    requires k.procs[i].level == Device && k.procs[i].yielded
    ensures CheckPlan(plan, v, k).Running? && CheckLeaves(plan, v, k, CheckPlan(plan, v, k).k)
  {
    hide CheckPlan, SlotCheck, Nobody, Carries, SporadicOk, DevicesOk, IdleOk, PlanOk, RatesOk, NamesFit;
    LevelUnique(k, i);
    FlagAt(k, i);
    DeviceCheckIs(plan, v, k, i);
    var n := plan.names[k.index];
    var named := PidFromName(k.procs, n);
    var k1 := k.(lastChange := k.tick - k.debt, debt := 0);
    CoreIgnoresSlot(plan, k, k1);
    LookupIs(k.procs, n);
    if named != INVALIDPID {
      NamedIsPeriodic(plan, k1, n);
      PeriodicOnly(k1, named);
    }
    SlotCheckTests(plan, v, k1, NonNegative(k.debt), named, false);
    var o := SlotCheck(plan, v, k1, NonNegative(k.debt), named, false);
    GoneSame(k1, o.k);
    LookupSame(k.procs, o.k.procs, n, named);
  }

  lemma GoneSame(k: Kernel, k': Kernel)
    requires FlagGone(k, k')
    ensures SameButFlags(k.procs, k'.procs)
  {
  }

  /** The time-up test while another process than a device runs, or nobody does. */
  lemma OrdinaryLeaves(plan: Plan, v: Variant, k: Kernel, k1: Kernel, next: nat, gaveUp: bool)
    requires Ready(plan, k) && k.index != INVALID_IDX && !DeviceRunning(k) && gaveUp == GaveUp(k)
    requires Core(plan, k1) && k1 == k.(sporadic := k1.sporadic) && next == k.current
    requires next != INVALIDPID && !gaveUp ==> MayRun(plan, k1, next)
    ensures var o := SlotCheck(plan, v, k1, NonNegative(k.tick - k.lastChange), next, gaveUp);
            && o.Running? && FlagGone(k, o.k) && o.k == k1.(procs := o.k.procs, current := o.k.current,
                 index := o.k.index, lastChange := o.k.lastChange)
            && Timed(plan, v, k, o.k)
  {
    hide SlotCheck, OwnerRuns, SporadicOk, DevicesOk, IdleOk, PlanOk, RatesOk, NamesFit;
    SlotCheckTests(plan, v, k1, NonNegative(k.tick - k.lastChange), next, gaveUp);
  }

  /** The check of a launched plan while process i runs, which is no device. */
  lemma ProcessLeaves(plan: Plan, v: Variant, k: Kernel, i: nat)
    requires Ready(plan, k) && k.index != INVALID_IDX && i < |k.procs| && k.procs[i].pid == k.current != INVALIDPID
    requires k.procs[i].level != Device && (k.devices == [] || k.devices[0] == k.current)
    ensures CheckProcess(plan, v, k, k.procs[i]).Running?
    ensures CheckLeaves(plan, v, k, CheckProcess(plan, v, k, k.procs[i]).k)
  {
    hide SlotCheck, Timed, FlagGone;
    LevelUnique(k, i);
    FlagAt(k, i);
    if k.procs[i].level == Sporadic && k.procs[i].yielded {
      RotateOk(plan, k);
      OrdinaryLeaves(plan, v, k, k.(sporadic := k.sporadic[1..] + [k.sporadic[0]]), k.current, true);
    } else {
      OrdinaryLeaves(plan, v, k, k, k.current, k.procs[i].yielded);
    }
  }

  lemma PlanCheckLeaves(plan: Plan, v: Variant, k: Kernel)
    requires Ready(plan, k) && (k.devices == [] || k.devices[0] == k.current)
    ensures CheckPlan(plan, v, k).Running? && CheckLeaves(plan, v, k, CheckPlan(plan, v, k).k)
  {
    hide SlotCheck, CheckProcess, Dispatch, Timed, SporadicOk, DevicesOk, IdleOk, PlanOk;
    if k.index == INVALID_IDX {
      var k1 := k.(lastChange := k.tick, index := 0);
      CoreIgnoresSlot(plan, k, k1);
      DispatchOwner(plan, k1);
    } else if k.current == INVALIDPID {
      OrdinaryLeaves(plan, v, k, k, INVALIDPID, false);
    } else {
      SlotOfLive(k.procs, k.current);
      var i := SlotOf(k.procs, k.current);
      LevelUnique(k, i);
      FlagAt(k, i);
      if k.procs[i].level != Device {
        ProcessLeaves(plan, v, k, i);
      } else {
        if k.procs[i].yielded {
          DeviceDoneLeaves(plan, v, k, i);
        } else {
          DeviceCheckIs(plan, v, k, i);
        }
      }
    }
  }

  /** Every check that does not abort: its whole effect on the state, the due devices being queued first. */
  lemma CheckIs(plan: Plan, v: Variant, k: Kernel)
    requires Ready(plan, k) && Check(plan, v, k).Running?
    ensures CheckLeaves(plan, v, AfterRelease(v, k), Check(plan, v, k).k)
  {
    hide CheckPlan, Timed, SporadicOk, IdleOk, PlanOk, FlagsOk;
    var k1 := AfterRelease(v, k);
    ReleaseKeepsReady(plan, v, k);
    CheckIsQueued(plan, v, k);
    if k1.devices != [] && k1.devices[0] != k1.current {
      assert k1.devices[0] in k1.devices;
      var k2 := k1.(debt := k1.debt + (k1.tick - k1.lastChange), lastChange := k1.tick);
      SwitchFlagGone(k2, k1.devices[0]);
    } else {
      PlanCheckLeaves(plan, v, k1);
    }
  }

  // ----- Inside a slot -----

  /** A check that dispatches no device and does not find the time of the slot used up. A live process with
      a clear flag goes on. If nobody runs or another process than a device gave up its time, the user of
      idle time runs, and after a device the process of the slot. */
  lemma InsideSlot(plan: Plan, v: Variant, k: Kernel)
    requires Ready(plan, k) && k.index != INVALID_IDX && NoDeviceFirst(v, k) && !Advances(plan, v, k)
    requires Check(plan, v, k).Running?
    ensures var k' := Check(plan, v, k).k;
            && (k.current != 0 && !Flagged(k.procs, k.current) ==> k'.current == k.current && k'.procs == k.procs)
            && (k.current == 0 || GaveUp(k) ==> k'.current == IdleUser(plan, k'.sporadic))
            && (DeviceRunning(k) && Flagged(k.procs, k.current) ==> OwnerRuns(plan, plan.names[k.index], k'))
  {
    hide Check, SporadicOk, DevicesOk, IdleOk, PlanOk, TableOk, FlagsOk, BeforeCheck;
    CheckIs(plan, v, k);
    var k' := Check(plan, v, k).k;
    if k'.current == k.current {
      assert k'.procs == k.procs;
    }
  }

  /** Some process runs that is no device and has not given up its time. */
  ghost predicate Busy(plan: Plan, k: Kernel) {
    Inv(plan, k) && k.index != INVALID_IDX && k.current != 0 && !DeviceRunning(k) && !Flagged(k.procs, k.current)
  }

  lemma NoneQueued(plan: Plan, v: Variant, k: Kernel)
    requires Core(plan, k) && k.current != 0 && LivePid(k.procs, k.current) && !DeviceRunning(k)
    ensures NoDeviceFirst(v, k) <==> AfterRelease(v, k).devices == []
  {
    hide DueFrom;
    ReleaseDevicesOk(v, k);
  }

  lemma CarrierUnique(procs: seq<Process>, n: int, p: nat, q: nat)
    requires Carries(procs, n, p)
    ensures !Nobody(procs, n)
    ensures Carries(procs, n, q) ==> q == p
  {
    var i :| 0 <= i < |procs| && procs[i].pid == p != 0 && procs[i].n == n && Nobody(procs[..i], n);
    if j :| 0 <= j < |procs| && procs[j].pid == q != 0 && procs[j].n == n && Nobody(procs[..j], n) {
      assert i < j ==> procs[..j][i].n != n;
      assert j < i ==> procs[..i][j].n != n;
    }
  }

  /** The owner of a name is the same in two tables that differ in flags only. */
  lemma OwnerUnique(plan: Plan, n: int, k: Kernel, k': Kernel)
    requires OwnerRuns(plan, n, k') && SameButFlags(k.procs, k'.procs) && k'.sporadic == k.sporadic
    ensures OwnerRuns(plan, n, k) <==> k'.current == k.current
  {
    hide Nobody, Carries;
    LookupSame(k'.procs, k.procs, n, k'.current);
    if Carries(k'.procs, n, k'.current) {
      CarrierUnique(k.procs, n, k'.current, k.current);
    }
    if Carries(k.procs, n, k.current) {
      CarrierUnique(k.procs, n, k.current, k'.current);
    }
  }

  lemma RunnerLives(plan: Plan, k: Kernel)
    requires Busy(plan, k)
    ensures LivePid(k.procs, k.current) && k.current != 0 && k.index != INVALID_IDX
    ensures ClockOk(k) && WellFormed(plan, k)
  {
  }

  /** After a tick the same process runs exactly if no device is queued, and the time of the slot is not up
      or the next slot is again its own. */
  lemma TickKeepsRunnerIff(plan: Plan, v: Variant, k: Kernel, k': Kernel)
    requires Busy(plan, k) && Follows(plan, v, k, Timer, k')
    ensures k'.current == k.current <==>
            && k'.devices == []
            && (|| k'.tick - k.lastChange <= plan.maxes[k.index]
                || OwnerRuns(plan, plan.names[NextSlot(plan, k.index)], k))
    ensures k'.current == k.current && k'.tick - k.lastChange <= plan.maxes[k.index] ==>
              Busy(plan, k') && k'.index == k.index && k'.lastChange == k.lastChange
  {
    hide Check, Core, OwnerRuns, FlagsOk, BeforeCheck, CurrentOk;
    var k1 := k.(tick := k.tick + 1);
    CheckStartOk(plan, k, Timer);
    StepOk(plan, v, k, Timer);
    CheckIs(plan, v, k1);
    RunnerLives(plan, k);
    NoneQueued(plan, v, k1);
    GoneSame(AfterRelease(v, k1), k');
    if k'.devices == [] && plan.maxes[k.index] < k'.tick - k.lastChange {
      OwnerUnique(plan, plan.names[k'.index], k, k');
    }
  }

  lemma CreateKeepsRunner(plan: Plan, v: Variant, k: Kernel, level: Level, n: nat, k': Kernel)
    requires Busy(plan, k) && Follows(plan, v, k, Creates(level, n), k')
    ensures Busy(plan, k') && k'.current == k.current && k'.index == k.index
    ensures k'.lastChange == k.lastChange && k'.tick == k.tick
  {
    hide Core, Create;
    CreateOk(plan, k, level, n);
    if k' != k {
      RunnerLives(plan, k);
      InvClock(plan, k);
      CreateRoom(plan, k, level, n);
      CreateGains(k, level, n);
      if Flagged(k'.procs, k.current) {
        GainFlags(k, k', level, n);
      }
    }
  }

  lemma GainFlags(k: Kernel, k': Kernel, level: Level, n: nat)
    requires Gains(k, k', level, n) && Flagged(k'.procs, k.current)
    ensures Flagged(k.procs, k.current)
  {
  }

  lemma RunnerStep(plan: Plan, v: Variant, k: Kernel, e: Event, k': Kernel)
    requires Busy(plan, k) && Follows(plan, v, k, e, k') && e != Yields && e != Terminates && k'.devices == []
    requires WellFormed(plan, k) && k.index != INVALID_IDX && k'.tick - k.lastChange <= plan.maxes[k.index]
    ensures Busy(plan, k') && k'.current == k.current && k'.index == k.index && k'.lastChange == k.lastChange
  {
    hide Step, Allowed, Busy, OwnerRuns;
    match e
    case Timer => TickKeepsRunnerIff(plan, v, k, k');
    case Creates(level, n) => CreateKeepsRunner(plan, v, k, level, n, k');
    case _ =>
  }

  lemma TicksRise(plan: Plan, v: Variant, ks: seq<Kernel>, es: seq<Event>, i: nat)
    requires Trace(plan, v, ks, es) && Inv(plan, ks[0]) && i < |es|
    ensures Follows(plan, v, ks[i], es[i], ks[i + 1]) && ks[i].tick <= ks[i + 1].tick
  {
    hide Step, Allowed, Inv;
    TraceKeepsInv(plan, v, ks, es, i);
    InvClock(plan, ks[i]);
    StepClock(plan, v, ks[i], es[i], ks[i + 1]);
  }

  /** In a launched plan a process that is no device keeps the processor, whatever is created and however
      often the schedule is checked, until it yields or terminates, a device is queued, or the time of the
      slot is up. */
  lemma {:induction false} KeepsRunning(plan: Plan, v: Variant, ks: seq<Kernel>, es: seq<Event>, start: nat, i: nat)
    requires |ks| == |es| + 1 && Trace(plan, v, ks, es) && Inv(plan, ks[0])
    requires start <= i < |ks| && Busy(plan, ks[start])
    requires forall j | start <= j < i :: es[j] != Yields && es[j] != Terminates && ks[j + 1].devices == []
    requires ks[i].tick - ks[start].lastChange <= plan.maxes[ks[start].index]
    ensures ks[i].current == ks[start].current && ks[i].index == ks[start].index
    ensures ks[i].lastChange == ks[start].lastChange && Busy(plan, ks[i])
    decreases i
  {
    hide Step, Allowed, Busy, Inv, Follows, Trace;
    RunnerLives(plan, ks[start]);
    if i > start {
      TicksRise(plan, v, ks, es, i - 1);
      KeepsRunning(plan, v, ks, es, start, i - 1);
      RunnerLives(plan, ks[i - 1]);
      RunnerStep(plan, v, ks[i - 1], es[i - 1], ks[i]);
    }
  }
}
