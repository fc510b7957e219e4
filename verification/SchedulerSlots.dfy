/** The time slots of the plan: their age stays bounded, and who runs when one begins. */
module SchedulerSlots {
  import opened Scheduler
  import opened SchedulerInvariant

  /** A state in which a check may start. */
  ghost predicate Ready(plan: Plan, k: Kernel) {
    Core(plan, k) && FlagsOk(k) && BeforeCheck(plan, k)
  }

  ghost predicate DeviceRunning(k: Kernel) {
    LiveAt(k.procs, k.current, Device)
  }

  /** The current slot exists and its time is not up. */
  ghost predicate AgeOk(plan: Plan, k: Kernel) {
    k.index < |plan.names| == |plan.maxes| && 0 <= k.tick - k.lastChange <= plan.maxes[k.index]
  }

  lemma SlotCheckAge(plan: Plan, v: Variant, k: Kernel, next: nat, gaveUp: bool)
    requires WellFormed(plan, k) && k.index != INVALID_IDX && k.lastChange <= k.tick
    requires SlotCheck(plan, v, k, k.tick - k.lastChange, next, gaveUp).Running?
    ensures AgeOk(plan, SlotCheck(plan, v, k, k.tick - k.lastChange, next, gaveUp).k)
  {
  }

  lemma CheckProcessAge(plan: Plan, v: Variant, k: Kernel, p: Process)
    requires WellFormed(plan, k) && k.index != INVALID_IDX && ClockOk(k) && CheckProcess(plan, v, k, p).Running?
    requires p.level == Device ==> p.yielded
    ensures AgeOk(plan, CheckProcess(plan, v, k, p).k)
  {
    if p.level == Device {
      var k1 := k.(lastChange := k.tick - k.debt, debt := 0);
      SlotCheckAge(plan, v, k1, PidFromName(k.procs, plan.names[k.index]), false);
    } else if p.level == Sporadic && p.yielded {
      SlotCheckAge(plan, v, k.(sporadic := k.sporadic[1..] + [k.sporadic[0]]), k.current, true);
    } else {
      SlotCheckAge(plan, v, k, k.current, p.yielded);
    }
  }

  lemma CheckPlanAge(plan: Plan, v: Variant, k: Kernel)
    requires Core(plan, k) && FlagsOk(k) && BeforeCheck(plan, k)
    ensures CheckPlan(plan, v, k).Running?
    ensures DeviceRunning(CheckPlan(plan, v, k).k) || AgeOk(plan, CheckPlan(plan, v, k).k)
  {
    hide SlotCheck, CheckProcess, SporadicOk, DevicesOk, IdleOk, PlanOk, FlagsOk;
    CheckPlanOk(plan, v, k);
    var i := SlotOf(k.procs, k.current);
    if k.index != INVALID_IDX {
      if k.current == INVALIDPID {
        SlotCheckAge(plan, v, k, INVALIDPID, false);
      } else if i < |k.procs| {
        var p := k.procs[i];
        if p.level == Device && !p.yielded {
          DeviceCheckIs(plan, v, k, i);
        } else {
          CheckProcessAge(plan, v, k, p);
        }
      }
    }
  }

  lemma CheckIsQueued(plan: Plan, v: Variant, k: Kernel)
    requires WellFormed(plan, k) && Check(plan, v, k).Running?
    ensures Check(plan, v, k) == CheckQueued(plan, v, AfterRelease(v, k))
  {
  }

  lemma ReleaseKeepsReady(plan: Plan, v: Variant, k: Kernel)
    requires Ready(plan, k)
    ensures Ready(plan, AfterRelease(v, k))
  {
    ReleaseOk(plan, v, k);
    hide Core;
  }

  /** A check that does not abort, on a ring whose front is not running, dispatches that front. */
  lemma HeadIsDevice(plan: Plan, v: Variant, k: Kernel)
    requires Ready(plan, k) && k.devices != [] && k.devices[0] != k.current && CheckQueued(plan, v, k).Running?
    ensures DeviceRunning(CheckQueued(plan, v, k).k)
  {
    hide SporadicOk, DevicesOk, IdleOk, PlanOk, TableOk;
    CheckQueuedOk(plan, v, k);
    var k2 := k.(debt := k.debt + (k.tick - k.lastChange), lastChange := k.tick);
    FrontIsDevice(plan, k);
    SameLevels(k.procs, CheckQueued(plan, v, k).k.procs, k.devices[0]);
  }

  lemma FrontIsDevice(plan: Plan, k: Kernel)
    requires Core(plan, k) && k.devices != [] && LivePid(k.procs, k.devices[0])
    ensures LiveAt(k.procs, k.devices[0], Device)
  {
    assert k.devices[0] in k.devices;
  }

  /** After every check that leaves no device running, the plan stands at one of its slots and has
      given it no more than its time. */
  lemma SlotAgeBounded(plan: Plan, v: Variant, k: Kernel)
    requires Ready(plan, k) && Check(plan, v, k).Running?
    ensures DeviceRunning(Check(plan, v, k).k) || AgeOk(plan, Check(plan, v, k).k)
  {
    hide Check, CheckPlan, FlagsOk, BeforeCheck, SporadicOk, DevicesOk, IdleOk, PlanOk;
    var k1 := AfterRelease(v, k);
    ReleaseKeepsReady(plan, v, k);
    CheckIsQueued(plan, v, k);
    if k1.devices != [] && k1.devices[0] != k1.current {
      HeadIsDevice(plan, v, k1);
    } else {
      CheckPlanAge(plan, v, k1);
    }
  }

  // ----- Who runs when a slot begins -----

  /** The check finds the time of the current slot used up and advances the plan. */
  ghost predicate Advances(plan: Plan, v: Variant, k: Kernel)
    requires WellFormed(plan, k)
  {
    var k1 := AfterRelease(v, k);
    && k.index != INVALID_IDX
    && (k1.devices == [] || k1.devices[0] == k.current)
    && if DeviceRunning(k) then Flagged(k.procs, k.current) && plan.maxes[k.index] < k.debt
       else plan.maxes[k.index] < k.tick - k.lastChange
  }

  /** The running process, no device, has its yielded flag set. */
  ghost predicate GaveUp(k: Kernel) {
    Flagged(k.procs, k.current) && !DeviceRunning(k)
  }

  function Owner(plan: Plan, k: Kernel): nat
    requires WellFormed(plan, k) && k.index != INVALID_IDX
  {
    PidFromName(k.procs, plan.names[NextSlot(plan, k.index)])
  }

  lemma AdvanceDispatches(plan: Plan, v: Variant, k: Kernel, age: int, next: nat, gaveUp: bool)
    requires Core(plan, k) && FlagsOk(k) && k.index != INVALID_IDX && plan.maxes[k.index] < age
    requires k.current == INVALIDPID || LivePid(k.procs, k.current)
    requires Owner(plan, k) != INVALIDPID
    ensures var o := SlotCheck(plan, v, k, age, next, gaveUp);
            && o.Running? && o.k.index == NextSlot(plan, k.index) && o.k.lastChange == k.tick
            && (o.k.current == Owner(plan, k) <==> v.forgetOnChange || !gaveUp)
  {
    hide Dispatch;
    var k1 := k.(lastChange := k.tick, index := NextSlot(plan, k.index));
    CoreIgnoresSlot(plan, k, k1);
    NamedIsPeriodic(plan, k1, plan.names[k1.index]);
    PeriodicOnly(k1, Owner(plan, k));
    DispatchOk(plan, k1, Owner(plan, k), gaveUp && !v.forgetOnChange);
    OwnerIsNobodyElse(plan, k, Owner(plan, k));
  }

  lemma OwnerIsNobodyElse(plan: Plan, k: Kernel, pid: nat)
    requires Core(plan, k) && LiveAt(k.procs, pid, Periodic)
    ensures pid != plan.idle && (k.sporadic != [] ==> k.sporadic[0] != pid)
  {
    var i :| 0 <= i < |k.procs| && k.procs[i].pid == pid && k.procs[i].level == Periodic && pid != INVALIDPID;
    LevelUnique(k, i);
    if k.sporadic != [] {
      assert k.sporadic[0] in k.sporadic;
    }
  }

  /** No device is dispatched by this check. */
  ghost predicate NoDeviceFirst(v: Variant, k: Kernel) {
    var k1 := AfterRelease(v, k);
    k1.devices == [] || k1.devices[0] == k.current
  }

  lemma PlanIsChecked(plan: Plan, v: Variant, k: Kernel)
    requires Ready(plan, k) && NoDeviceFirst(v, k)
    ensures Check(plan, v, k).Running? <==> |AfterRelease(v, k).devices| <= MAXPROCESS
    ensures Check(plan, v, k).Running? ==> Check(plan, v, k) == CheckPlan(plan, v, AfterRelease(v, k))
  {
    hide CheckPlan, Core;
    CheckOk(plan, v, k);
  }

  /** When a check advances the plan to a slot whose name a live process has, that process runs on return
      exactly if the process running before had not given up its time, or the flag is forgotten. The
      check returns unless the due devices do not fit the ring. */
  lemma NewSlotRunsIff(plan: Plan, v: Variant, k: Kernel)
    requires Ready(plan, k) && Advances(plan, v, k) && Owner(plan, k) != INVALIDPID
    ensures Check(plan, v, k).Running? <==> |AfterRelease(v, k).devices| <= MAXPROCESS
    ensures Check(plan, v, k).Running? ==>
              var k' := Check(plan, v, k).k;
              && k'.index == NextSlot(plan, k.index) && k'.lastChange == k.tick
              && (k'.current == Owner(plan, k) <==> v.forgetOnChange || !GaveUp(k))
  {
    hide SlotCheck, CheckProcess, Check, CheckQueued, SporadicOk, DevicesOk, IdleOk, PlanOk;
    var k1 := AfterRelease(v, k);
    PlanIsChecked(plan, v, k);
    ReleaseOk(plan, v, k);
    if k.current == INVALIDPID {
      AdvanceDispatches(plan, v, k1, k1.tick - k1.lastChange, INVALIDPID, false);
    } else {
      SlotOfLive(k.procs, k.current);
      var i := SlotOf(k.procs, k.current);
      LevelUnique(k, i);
      FlagAt(k, i);
      ProcessAdvances(plan, v, k1, i);
    }
  }

  lemma SlotCheckStays(plan: Plan, v: Variant, k: Kernel, age: int, next: nat, gaveUp: bool)
    requires WellFormed(plan, k) && k.index != INVALID_IDX && SlotCheck(plan, v, k, age, next, gaveUp).Running?
    requires age <= plan.maxes[k.index]
    ensures SlotCheck(plan, v, k, age, next, gaveUp).k.index == k.index
  {
  }

  /** A check of a launched plan that does not find the time of the slot used up stays in the slot. */
  lemma OnlyAdvancesMove(plan: Plan, v: Variant, k: Kernel)
    requires Ready(plan, k) && k.index != INVALID_IDX && !Advances(plan, v, k) && Check(plan, v, k).Running?
    ensures Check(plan, v, k).k.index == k.index
  {
    hide Check, CheckProcess, SlotCheck, SporadicOk, DevicesOk, IdleOk, PlanOk;
    var k1 := AfterRelease(v, k);
    CheckIsQueued(plan, v, k);
    if NoDeviceFirst(v, k) {
      if k.current == INVALIDPID {
        SlotCheckStays(plan, v, k1, NonNegative(k.tick - k.lastChange), INVALIDPID, false);
      } else {
        SlotOfLive(k.procs, k.current);
        var i := SlotOf(k.procs, k.current);
        LevelUnique(k, i);
        FlagAt(k, i);
        ProcessStays(plan, v, k1, k.procs[i]);
      }
    }
  }

  lemma ProcessStays(plan: Plan, v: Variant, k: Kernel, p: Process)
    requires WellFormed(plan, k) && k.index != INVALID_IDX && ClockOk(k) && CheckProcess(plan, v, k, p).Running?
    requires p.level == Device && p.yielded ==> k.debt <= plan.maxes[k.index]
    requires p.level != Device ==> k.tick - k.lastChange <= plan.maxes[k.index]
    ensures CheckProcess(plan, v, k, p).k.index == k.index
  {
    hide SlotCheck;
    if p.level == Device && p.yielded {
      var k1 := k.(lastChange := k.tick - k.debt, debt := 0);
      SlotCheckStays(plan, v, k1, k.debt, PidFromName(k.procs, plan.names[k.index]), false);
    } else if p.level == Sporadic && p.yielded {
      var k1 := k.(sporadic := k.sporadic[1..] + [k.sporadic[0]]);
      SlotCheckStays(plan, v, k1, k.tick - k.lastChange, k.current, true);
    } else if p.level != Device {
      SlotCheckStays(plan, v, k, k.tick - k.lastChange, k.current, p.yielded);
    }
  }

  /** The check that launches the plan begins slot 0 and runs the process of its name, if there is one, and
      else whoever uses the idle time. */
  lemma LaunchRunsOwner(plan: Plan, v: Variant, k: Kernel)
    requires Ready(plan, k) && k.index == INVALID_IDX && NoDeviceFirst(v, k)
    ensures Check(plan, v, k).Running? <==> |AfterRelease(v, k).devices| <= MAXPROCESS
    ensures Check(plan, v, k).Running? ==>
              var k' := Check(plan, v, k).k;
              var owner := PidFromName(k.procs, plan.names[0]);
              && k'.index == 0 && k'.lastChange == k.tick
              && k'.current ==
                 if owner != INVALIDPID then owner else if k.sporadic != [] then k.sporadic[0] else plan.idle
  {
    hide Check, Dispatch, PidFromName, FlagsOk;
    var k1 := AfterRelease(v, k).(lastChange := k.tick, index := 0);
    PlanIsChecked(plan, v, k);
    ReleaseOk(plan, v, k);
    CoreIgnoresSlot(plan, AfterRelease(v, k), k1);
    var owner := PidFromName(k.procs, plan.names[0]);
    if owner != INVALIDPID {
      NamedIsPeriodic(plan, k1, plan.names[0]);
      PeriodicOnly(k1, owner);
    }
    FlagsKept(v, k, k1);
    DispatchOk(plan, k1, owner, false);
  }

  lemma FlagsKept(v: Variant, k: Kernel, k1: Kernel)
    requires FlagsOk(k) && k1.procs == k.procs && k1.current == k.current
    ensures FlagsOk(k1)
  {
  }

  lemma ProcessAdvances(plan: Plan, v: Variant, k: Kernel, i: nat)
    requires Core(plan, k) && FlagsOk(k) && BeforeCheck(plan, k) && k.index != INVALID_IDX
    requires i < |k.procs| && k.procs[i].pid == k.current != INVALIDPID
    requires k.procs[i].level == Device ==> k.procs[i].yielded
    requires plan.maxes[k.index] < if k.procs[i].level == Device then k.debt else k.tick - k.lastChange
    requires Owner(plan, k) != INVALIDPID
    ensures var o := CheckProcess(plan, v, k, k.procs[i]);
            && o.Running? && o.k.index == NextSlot(plan, k.index) && o.k.lastChange == k.tick
            && (o.k.current == Owner(plan, k) <==>
                v.forgetOnChange || k.procs[i].level == Device || !k.procs[i].yielded)
  {
    hide SlotCheck, SporadicOk, DevicesOk, IdleOk, PlanOk, PidFromName;
    LevelUnique(k, i);
    var p := k.procs[i];
    var age := NonNegative(k.tick - k.lastChange);
    if p.level == Device {
      var k' := k.(lastChange := k.tick - k.debt, debt := 0);
      CoreIgnoresSlot(plan, k, k');
      AdvanceDispatches(plan, v, k', NonNegative(k.debt), PidFromName(k.procs, plan.names[k.index]), false);
    } else if p.level == Sporadic && p.yielded {
      RotateOk(plan, k);
      AdvanceDispatches(plan, v, k.(sporadic := k.sporadic[1..] + [k.sporadic[0]]), age, k.current, true);
    } else {
      AdvanceDispatches(plan, v, k, age, k.current, p.yielded);
    }
  }

  /** How the flag comes to be left over: the only sporadic process, in a slot of an absent process, yields,
      gets the processor right back and keeps its flag. */
  lemma SoleSporadicKeepsFlag(plan: Plan, v: Variant, k: Kernel)
    requires Inv(plan, k) && k.current != INVALIDPID && LiveAt(k.procs, k.current, Sporadic)
    requires k.sporadic == [k.current] && k.devices == [] && AgeOk(plan, k)
    requires !Flagged(k.procs, k.current)
    requires MarkYielded(k).Running? ==> Released(v, MarkYielded(k).k) == []
    ensures Yield(plan, v, k).Running?
    ensures var k' := Yield(plan, v, k).k;
            k'.current == k.current && k'.sporadic == k.sporadic && k'.index == k.index && GaveUp(k')
  {
    MarkYieldedOk(plan, k);
    SlotOfLive(k.procs, k.current);
    var i := SlotOf(k.procs, k.current);
    LevelUnique(k, i);
    FlagAt(k, i);
    var k1 := MarkYielded(k).k;
    SameLevels(k.procs, k1.procs, k.current);
    LevelUnique(k1, i);
    FlagAt(k1, i);
    SoleRotates(plan, v, AfterRelease(v, k1), i);
  }

  lemma SoleRotates(plan: Plan, v: Variant, k: Kernel, i: nat)
    requires WellFormed(plan, k) && AgeOk(plan, k) && k.sporadic == [k.current] && k.devices == []
    requires i == SlotOf(k.procs, k.current) < |k.procs| && k.current != INVALIDPID
    requires k.procs[i].level == Sporadic && k.procs[i].yielded
    ensures CheckQueued(plan, v, k) == Running(k)
  {
    assert k.sporadic[1..] + [k.sporadic[0]] == k.sporadic;
    assert k.(sporadic := k.sporadic[1..] + [k.sporadic[0]]) == k;
  }
}
