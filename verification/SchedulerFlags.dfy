/** Which processes can still have their yielded flag set between two events. */
module SchedulerFlags {
  import opened Scheduler
  import opened SchedulerInvariant
  import opened SchedulerSlots

  /** Only a running sporadic process has its flag set; and unless a device runs, the time of the slot
      is not up. */
  ghost predicate AtRest(plan: Plan, k: Kernel) {
    && (Flagged(k.procs, k.current) ==> LiveAt(k.procs, k.current, Sporadic))
    && (k.current != INVALIDPID && !DeviceRunning(k) ==> AgeOk(plan, k))
  }

  /** A process whose flag is set is the only sporadic one. */
  ghost predicate SoleFlag(k: Kernel) {
    Flagged(k.procs, k.current) ==> LiveAt(k.procs, k.current, Sporadic) && k.sporadic == [k.current]
  }

  /** A check may start: a process that has just given up its time is a device, or sporadic, or its slot
      goes on. */
  ghost predicate MayStart(plan: Plan, k: Kernel) {
    && Ready(plan, k)
    && (Flagged(k.procs, k.current) && !DeviceRunning(k) ==>
          k.index != INVALID_IDX && k.current != plan.idle && (LiveAt(k.procs, k.current, Sporadic) || AgeOk(plan, k)))
  }

  /** A process that is still flagged after a switch was running and flagged before, and nothing changed. */
  lemma SwitchFlag(plan: Plan, k: Kernel, pid: nat)
    requires TableOk(k) && FlagsOk(k) && Switch(k, pid).Running? && pid != INVALIDPID
    ensures var k' := Switch(k, pid).k;
            k'.current == pid && (Flagged(k'.procs, pid) ==> pid == k.current && k' == k)
  {
    UnflagClears(k);
  }

  lemma DispatchFlag(plan: Plan, k: Kernel, next: nat, gaveUp: bool)
    requires Core(plan, k) && FlagsOk(k) && Dispatch(plan, k, next, gaveUp).Running?
    ensures var k' := Dispatch(plan, k, next, gaveUp).k;
            && k'.sporadic == k.sporadic
            && (Flagged(k'.procs, k'.current) ==> k'.current == k.current && k' == k)
            && (gaveUp ==> k'.current == if k.sporadic == [] then plan.idle else k.sporadic[0])
  {
    hide Switch, IdleOk, DevicesOk, PlanOk;
    if k.sporadic != [] {
      assert k.sporadic[0] in k.sporadic;
    }
    var pid := if next == INVALIDPID || gaveUp then (if k.sporadic == [] then plan.idle else k.sporadic[0]) else next;
    SwitchFlag(plan, k, pid);
    SwitchRing(k, pid);
  }

  lemma SwitchRing(k: Kernel, pid: nat)
    requires Switch(k, pid).Running?
    ensures Switch(k, pid).k.sporadic == k.sporadic
  {
  }

  lemma SlotCheckFlag(plan: Plan, v: Variant, k: Kernel, age: int, next: nat, gaveUp: bool)
    requires Core(plan, k) && FlagsOk(k) && k.index != INVALID_IDX && SlotCheck(plan, v, k, age, next, gaveUp).Running?
    ensures var k' := SlotCheck(plan, v, k, age, next, gaveUp).k;
            && k'.sporadic == k.sporadic
            && (Flagged(k'.procs, k'.current) ==> k'.current == k.current && k'.procs == k.procs)
            && (gaveUp && (age <= plan.maxes[k.index] || !v.forgetOnChange) ==>
                  k'.current == if k.sporadic == [] then plan.idle else k.sporadic[0])
            && (gaveUp ==>
                  || LiveAt(k.procs, k'.current, Periodic)
                  || k'.current == if k.sporadic == [] then plan.idle else k.sporadic[0])
  {
    hide Dispatch;
    if plan.maxes[k.index] < age {
      var k1 := k.(lastChange := k.tick, index := NextSlot(plan, k.index));
      CoreIgnoresSlot(plan, k, k1);
      var named := PidFromName(k1.procs, plan.names[k1.index]);
      DispatchFlag(plan, k1, named, gaveUp && !v.forgetOnChange);
      DispatchTarget(plan, k1, named, gaveUp && !v.forgetOnChange);
      if named != INVALIDPID {
        NamedIsPeriodic(plan, k1, plan.names[k1.index]);
      }
    } else {
      DispatchFlag(plan, k, next, gaveUp);
    }
  }

  lemma DispatchTarget(plan: Plan, k: Kernel, next: nat, gaveUp: bool)
    requires Core(plan, k) && Dispatch(plan, k, next, gaveUp).Running?
    ensures Dispatch(plan, k, next, gaveUp).k.current ==
            if next != INVALIDPID && !gaveUp then next else if k.sporadic == [] then plan.idle else k.sporadic[0]
  {
    if k.sporadic != [] {
      assert k.sporadic[0] in k.sporadic;
    }
  }

  /** A running process that is no device and has its flag set keeps both only as the sole sporadic one. */
  lemma GaveUpCheck(plan: Plan, v: Variant, k: Kernel, i: nat)
    requires MayStart(plan, k) && k.index != INVALID_IDX && i < |k.procs| && k.procs[i].pid == k.current != INVALIDPID
    requires k.procs[i].yielded && k.procs[i].level != Device && CheckProcess(plan, v, k, k.procs[i]).Running?
    ensures var k' := CheckProcess(plan, v, k, k.procs[i]).k;
            Flagged(k'.procs, k'.current) ==> k'.current == k.current && k'.sporadic == [k.current]
                                              && LiveAt(k.procs, k.current, Sporadic) && k'.procs == k.procs
  {
    hide SlotCheck, IdleOk, DevicesOk, PlanOk;
    var age := NonNegative(k.tick - k.lastChange);
    LevelUnique(k, i);
    FlagAt(k, i);
    if k.procs[i].level == Sporadic {
      var r := k.sporadic[1..] + [k.sporadic[0]];
      RotateOk(plan, k);
      SlotCheckFlag(plan, v, k.(sporadic := r), age, k.current, true);
      if |k.sporadic| > 1 {
        assert r[0] == k.sporadic[1] != k.sporadic[0];
      }
    } else {
      SlotCheckFlag(plan, v, k, age, k.current, true);
      if k.sporadic != [] {
        assert k.sporadic[0] in k.sporadic;
      }
    }
  }

  /** The check of the plan leaves a flag only with the sole sporadic process. */
  lemma PlanCheckFlag(plan: Plan, v: Variant, k: Kernel)
    requires MayStart(plan, k) && CheckPlan(plan, v, k).Running? && Inv(plan, CheckPlan(plan, v, k).k)
    ensures SoleFlag(CheckPlan(plan, v, k).k)
  {
    hide SlotCheck, CheckProcess, Dispatch, SporadicOk, DevicesOk, IdleOk, PlanOk;
    var k' := CheckPlan(plan, v, k).k;
    if Flagged(k'.procs, k'.current) {
      if k.index == INVALID_IDX {
        var k1 := k.(lastChange := k.tick, index := 0);
        CoreIgnoresSlot(plan, k, k1);
        DispatchFlag(plan, k1, PidFromName(k1.procs, plan.names[0]), false);
      } else if k.current == INVALIDPID {
        SlotCheckFlag(plan, v, k, NonNegative(k.tick - k.lastChange), INVALIDPID, false);
      } else {
        var i := SlotOf(k.procs, k.current);
        SlotOfLive(k.procs, k.current);
        RunningCheckFlag(plan, v, k, i);
      }
    }
  }

  lemma RunningCheckFlag(plan: Plan, v: Variant, k: Kernel, i: nat)
    requires MayStart(plan, k) && k.index != INVALID_IDX && i < |k.procs| && k.procs[i].pid == k.current != INVALIDPID
    requires CheckProcess(plan, v, k, k.procs[i]).Running? && Inv(plan, CheckProcess(plan, v, k, k.procs[i]).k)
    ensures SoleFlag(CheckProcess(plan, v, k, k.procs[i]).k)
  {
    hide SlotCheck, SporadicOk, DevicesOk, IdleOk, PlanOk;
    StartsReady(plan, k);
    hide MayStart;
    var p := k.procs[i];
    var k' := CheckProcess(plan, v, k, p).k;
    if Flagged(k'.procs, k'.current) {
      LevelUnique(k, i);
      FlagAt(k, i);
      if p.level == Device && p.yielded {
        var k1 := k.(lastChange := k.tick - k.debt, debt := 0);
        CoreIgnoresSlot(plan, k, k1);
        SlotCheckFlag(plan, v, k1, NonNegative(k.debt), PidFromName(k.procs, plan.names[k.index]), false);
      } else if p.yielded {
        GaveUpCheck(plan, v, k, i);
      } else if p.level != Device {
        SlotCheckFlag(plan, v, k, NonNegative(k.tick - k.lastChange), k.current, false);
      }
    }
  }

  lemma StartsReady(plan: Plan, k: Kernel)
    requires MayStart(plan, k)
    ensures Ready(plan, k)
  {
  }

  /** After every check, a process whose flag is still set is the only sporadic one. */
  lemma CheckLeavesSoleFlag(plan: Plan, v: Variant, k: Kernel)
    requires MayStart(plan, k) && Check(plan, v, k).Running?
    ensures SoleFlag(Check(plan, v, k).k)
  {
    hide Check, CheckPlan, Switch, SporadicOk, DevicesOk, IdleOk, PlanOk, SoleFlag;
    var k1 := AfterRelease(v, k);
    CheckOk(plan, v, k);
    ReleaseOk(plan, v, k);
    CheckIsQueued(plan, v, k);
    assert MayStart(plan, k1);
    if k1.devices != [] && k1.devices[0] != k1.current {
      var k2 := k1.(debt := k1.debt + (k1.tick - k1.lastChange), lastChange := k1.tick);
      CoreIgnoresSlot(plan, k1, k2);
      DispatchedIsClear(plan, k2);
    } else {
      PlanCheckFlag(plan, v, k1);
    }
  }

  lemma DispatchedIsClear(plan: Plan, k: Kernel)
    requires TableOk(k) && FlagsOk(k) && DevicesOk(k) && k.devices != [] && k.devices[0] != k.current
    requires Switch(k, k.devices[0]).Running?
    ensures SoleFlag(Switch(k, k.devices[0]).k)
  {
    assert k.devices[0] in k.devices;
    SwitchFlag(plan, k, k.devices[0]);
  }

  // ----- Every reachable state -----

  /** A check that an event triggers in a state at rest may start. */
  lemma StepMayStart(plan: Plan, k: Kernel, e: Event)
    requires Inv(plan, k) && AtRest(plan, k) && Allowed(plan, k, e) && Checks(k, e)
    ensures MayStart(plan, CheckStart(k, e))
  {
    hide Core, FlagsOk, BeforeCheck;
    var k1 := CheckStart(k, e);
    CheckStartOk(plan, k, e);
    SlotsAreFew(plan, k);
    if e == Yields {
      MarkYieldedOk(plan, k);
      SameLevels(k.procs, k1.procs, k.current);
    } else if Flagged(k.procs, k.current) {
      FlaggedSporadic(plan, k);
    }
  }

  lemma SlotsAreFew(plan: Plan, k: Kernel)
    requires Core(plan, k)
    ensures AgeOk(plan, k) ==> k.index != INVALID_IDX
  {
  }

  lemma FlaggedSporadic(plan: Plan, k: Kernel)
    requires Core(plan, k) && LiveAt(k.procs, k.current, Sporadic)
    ensures !DeviceRunning(k) && k.current != plan.idle
  {
    var i :| 0 <= i < |k.procs| && k.procs[i].pid == k.current && k.procs[i].level == Sporadic;
    LevelUnique(k, i);
  }

  /** Between events only a sporadic process can have its flag set, and right after a check only the sole one. */
  lemma StepKeepsAtRest(plan: Plan, v: Variant, k: Kernel, e: Event, k': Kernel)
    requires Inv(plan, k) && AtRest(plan, k) && Follows(plan, v, k, e, k')
    ensures AtRest(plan, k') && (Checks(k, e) ==> SoleFlag(k'))
  {
    hide Check, Step, Core, MarkYielded;
    if Checks(k, e) {
      StepIsItsCheck(plan, v, k, e);
      StepMayStart(plan, k, e);
      CheckLeavesSoleFlag(plan, v, CheckStart(k, e));
      SlotAgeBounded(plan, v, CheckStart(k, e));
    } else {
      CallKeepsAtRest(plan, v, k, e, k');
    }
  }

  lemma CallKeepsAtRest(plan: Plan, v: Variant, k: Kernel, e: Event, k': Kernel)
    requires Inv(plan, k) && AtRest(plan, k) && Follows(plan, v, k, e, k') && !Checks(k, e)
    ensures AtRest(plan, k')
  {
    hide Check, Yield, Terminate, Create, MarkYielded;
    match e
    case Timer =>
    case Yields => YieldIsCheck(plan, v, k);
    case Terminates => TerminatedIsNobody(v, k);
    case Creates(level, n) => CreateKeepsAtRest(plan, k, level, n);
  }

  lemma TerminatedIsNobody(v: Variant, k: Kernel)
    requires Terminate(v, k).Running?
    ensures Terminate(v, k).k.current == INVALIDPID
  {
  }

  lemma CreateKeepsAtRest(plan: Plan, k: Kernel, level: Level, n: nat)
    requires Inv(plan, k) && AtRest(plan, k) && Allowed(plan, k, Creates(level, n))
    ensures AtRest(plan, Create(k, level, n).0)
  {
    hide Create, IdleOk, DevicesOk, PlanOk;
    var k' := Create(k, level, n).0;
    if k' != k {
      RingFits(k.procs, k.sporadic, Sporadic);
      CreateRoom(plan, k, level, n);
      CreateGains(k, level, n);
      GainRunning(plan, k, k', level, n);
      if Flagged(k'.procs, k.current) {
        var i :| 0 <= i < |k'.procs| && k'.procs[i].pid == k.current && k'.procs[i].yielded;
        assert k'.procs[i] == k.procs[i];
      }
    }
  }

  lemma CreateRoom(plan: Plan, k: Kernel, level: Level, n: nat)
    requires Core(plan, k) && Create(k, level, n).0 != k
    ensures |k.sporadic| < MAXPROCESS
  {
    RingFits(k.procs, k.sporadic, Sporadic);
  }

  lemma BootAtRest(plan: Plan)
    ensures AtRest(plan, Boot(plan))
  {
  }

  /** In every state of every run only a sporadic process can have its flag set. */
  lemma {:induction false} FlaggedIsSporadic(plan: Plan, v: Variant, ks: seq<Kernel>, es: seq<Event>, i: nat)
    requires Trace(plan, v, ks, es) && Inv(plan, ks[0]) && AtRest(plan, ks[0]) && i < |ks|
    ensures AtRest(plan, ks[i])
    ensures i > 0 && Checks(ks[i - 1], es[i - 1]) ==> SoleFlag(ks[i])
  {
    hide Step, Allowed, Inv, AtRest, Checks, SoleFlag;
    if i > 0 {
      FlaggedIsSporadic(plan, v, ks, es, i - 1);
      TraceKeepsInv(plan, v, ks, es, i - 1);
      assert Follows(plan, v, ks[i - 1], es[i - 1], ks[i - 1 + 1]);
      StepKeepsAtRest(plan, v, ks[i - 1], es[i - 1], ks[i]);
    }
  }
}
