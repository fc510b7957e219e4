/** The plan keeps its timetable, whatever the processes do in between. */
module SchedulerTimetable {
  import opened Scheduler
  import opened SchedulerInvariant
  import opened SchedulerSlots
  import opened SchedulerClock

  /** Ticks from the beginning of slot i to the end of the plan. Each slot lasts one tick more than its maximum. */
  function Span(maxes: seq<int>, i: nat): (s: nat)
    requires i <= |maxes| && forall j | 0 <= j < |maxes| :: 0 <= maxes[j]
    ensures i < |maxes| ==> s > 0
    decreases |maxes| - i
  {
    if i == |maxes| then 0 else maxes[i] + 1 + Span(maxes, i + 1)
  }

  /** Slot number and age at offset p from the beginning of slot i. */
  function Decode(maxes: seq<int>, i: nat, p: nat): (r: (nat, int))
    requires i < |maxes| && (forall j | 0 <= j < |maxes| :: 0 <= maxes[j]) && p < Span(maxes, i)
    ensures i <= r.0 < |maxes| && 0 <= r.1 <= maxes[r.0]
    decreases |maxes| - i
  {
    if p <= maxes[i] then (i, p)
    else
      assert Span(maxes, i) == maxes[i] + 1 + Span(maxes, i + 1);
      Decode(maxes, i + 1, p - (maxes[i] + 1))
  }

  /** The timetable: slot number and age t ticks after launch. */
  function Timetable(plan: Plan, t: nat): (due: (nat, int))
    requires WellFormedPlan(plan)
    ensures due.0 < |plan.maxes| && 0 <= due.1 <= plan.maxes[due.0]
  {
    Decode(plan.maxes, 0, t % Span(plan.maxes, 0))
  }

  /** The time-up test applied to a slot and an age. */
  function Normal(plan: Plan, i: nat, age: int): (nat, int)
    requires WellFormedPlan(plan) && i < |plan.maxes|
  {
    if plan.maxes[i] < age then (NextSlot(plan, i), 0) else (i, age)
  }

  lemma {:induction false} DecodeStep(plan: Plan, i: nat, p: nat)
    requires WellFormedPlan(plan) && i < |plan.maxes| && p < Span(plan.maxes, i)
    ensures var (j, age) := Decode(plan.maxes, i, p);
            if p + 1 < Span(plan.maxes, i) then Decode(plan.maxes, i, p + 1) == Normal(plan, j, age + 1)
            else Normal(plan, j, age + 1) == (0, 0)
    decreases |plan.maxes| - i
  {
    if p <= plan.maxes[i] {
      if p == plan.maxes[i] && i + 1 < |plan.maxes| {
        assert Decode(plan.maxes, i + 1, 0) == (i + 1, 0);
      }
    } else {
      DecodeStep(plan, i + 1, p - (plan.maxes[i] + 1));
    }
  }

  lemma ModStep(t: nat, c: nat)
    requires c > 0
    ensures (t + 1) % c == if t % c + 1 < c then t % c + 1 else 0
  {
    var q, r := t / c, t % c;
    assert t + 1 == q * c + (r + 1);
    if r + 1 < c {
      ModIs(t + 1, c, q, r + 1);
    } else {
      assert t + 1 == (q + 1) * c;
      ModIs(t + 1, c, q + 1, 0);
    }
  }

  lemma MultipleAtLeast(d: int, c: nat)
    ensures d >= 1 ==> c * d >= c
    ensures d <= -1 ==> c * d + c <= 0
  {
    if d >= 1 {
      assert c * (d - 1) >= 0;
    } else if d <= -1 {
      assert c * (-d - 1) >= 0;
    }
  }

  lemma ModIs(x: nat, c: nat, q: nat, r: nat)
    requires r < c && x == q * c + r
    ensures x % c == r
  {
    var d := x / c - q;
    assert x == c * (x / c) + x % c;
    assert c * d == r - x % c;
    MultipleAtLeast(d, c);
  }

  /** One tick later the timetable has moved on by one tick of age, or to the next slot. */
  lemma TimetableStep(plan: Plan, t: nat)
    requires WellFormedPlan(plan)
    ensures Timetable(plan, t + 1) == Normal(plan, Timetable(plan, t).0, Timetable(plan, t).1 + 1)
  {
    var c := Span(plan.maxes, 0);
    ModStep(t, c);
    DecodeStep(plan, 0, t % c);
    if t % c + 1 >= c {
      assert Decode(plan.maxes, 0, 0) == (0, 0);
    }
  }

  // ----- Slot, age and debt in a check -----

  lemma SlotCheckNormal(plan: Plan, v: Variant, k: Kernel, next: nat, gaveUp: bool)
    requires WellFormed(plan, k) && k.index != INVALID_IDX && k.lastChange <= k.tick
    requires SlotCheck(plan, v, k, k.tick - k.lastChange, next, gaveUp).Running?
    ensures var k' := SlotCheck(plan, v, k, k.tick - k.lastChange, next, gaveUp).k;
            && (k'.index, k'.tick - k'.lastChange) == Normal(plan, k.index, k.tick - k.lastChange)
            && k'.debt == k.debt && k'.tick == k.tick
  {
  }

  lemma CheckProcessNormal(plan: Plan, v: Variant, k: Kernel, p: Process)
    requires WellFormed(plan, k) && k.index != INVALID_IDX && ClockOk(k) && CheckProcess(plan, v, k, p).Running?
    requires if p.level == Device then p.yielded else k.debt == 0
    ensures var k' := CheckProcess(plan, v, k, p).k;
            && (k'.index, k'.tick - k'.lastChange) ==
               Normal(plan, k.index, if p.level == Device then k.debt else k.tick - k.lastChange)
            && k'.debt == 0 && k'.tick == k.tick
  {
    if p.level == Device {
      var k1 := k.(lastChange := k.tick - k.debt, debt := 0);
      SlotCheckNormal(plan, v, k1, PidFromName(k.procs, plan.names[k.index]), false);
    } else if p.level == Sporadic && p.yielded {
      SlotCheckNormal(plan, v, k.(sporadic := k.sporadic[1..] + [k.sporadic[0]]), k.current, true);
    } else {
      SlotCheckNormal(plan, v, k, k.current, p.yielded);
    }
  }

  /** The time that the slot has had, counting what a running device has put into debt. */
  function TimeHad(k: Kernel): int {
    k.debt + (k.tick - k.lastChange)
  }

  /** A running device was dispatched in this very tick; otherwise there is no debt. */
  ghost predicate DebtOk(k: Kernel) {
    if DeviceRunning(k) then k.lastChange == k.tick else k.debt == 0
  }

  lemma CheckPlanNormal(plan: Plan, v: Variant, k: Kernel)
    requires WellFormed(plan, k) && TableOk(k) && ClockOk(k) && k.index != INVALID_IDX && CheckPlan(plan, v, k).Running?
    requires DebtOk(k) && (DeviceRunning(k) ==> Flagged(k.procs, k.current))
    ensures var k' := CheckPlan(plan, v, k).k;
            && (k'.index, k'.tick - k'.lastChange) == Normal(plan, k.index, TimeHad(k))
            && k'.debt == 0 && k'.tick == k.tick
  {
    var i := SlotOf(k.procs, k.current);
    if k.current == INVALIDPID {
      SlotCheckNormal(plan, v, k, INVALIDPID, false);
    } else {
      LevelUnique(k, i);
      FlagAt(k, i);
      CheckProcessNormal(plan, v, k, k.procs[i]);
    }
  }

  /** What a check does to slot, age and debt: the time-up test is applied to the time had so far,
      unless a device is dispatched, which puts that time into debt. */
  ghost predicate Moves(plan: Plan, index: nat, had: int, k': Kernel)
    requires WellFormedPlan(plan) && index < |plan.names|
  {
    if DeviceRunning(k') then k'.index == index && k'.lastChange == k'.tick && k'.debt == had
    else k'.debt == 0 && (k'.index, k'.tick - k'.lastChange) == Normal(plan, index, had)
  }

  lemma CheckPlanSettles(plan: Plan, v: Variant, k: Kernel)
    requires Ready(plan, k) && (DeviceRunning(k) ==> Flagged(k.procs, k.current))
    ensures CheckPlan(plan, v, k).Running? && !DeviceRunning(CheckPlan(plan, v, k).k)
  {
    CheckPlanOk(plan, v, k);
  }

  lemma CheckQueuedMoves(plan: Plan, v: Variant, k: Kernel)
    requires Ready(plan, k) && k.index != INVALID_IDX && CheckQueued(plan, v, k).Running?
    requires DebtOk(k) && (DeviceRunning(k) ==> Flagged(k.procs, k.current))
    ensures CheckQueued(plan, v, k).k.tick == k.tick && Moves(plan, k.index, TimeHad(k), CheckQueued(plan, v, k).k)
  {
    hide CheckPlan;
    if k.devices != [] && k.devices[0] != k.current {
      HeadIsDevice(plan, v, k);
    } else {
      CheckPlanSettles(plan, v, k);
      CheckPlanNormal(plan, v, k);
    }
  }

  lemma CheckMoves(plan: Plan, v: Variant, k: Kernel)
    requires Ready(plan, k) && k.index != INVALID_IDX && Check(plan, v, k).Running?
    requires DebtOk(k) && (DeviceRunning(k) ==> Flagged(k.procs, k.current))
    ensures Check(plan, v, k).k.tick == k.tick && Moves(plan, k.index, TimeHad(k), Check(plan, v, k).k)
  {
    hide Check, CheckQueued, Moves, SporadicOk, DevicesOk, IdleOk, PlanOk, FlagsOk;
    ReleaseKeepsReady(plan, v, k);
    CheckIsQueued(plan, v, k);
    CheckQueuedMoves(plan, v, AfterRelease(v, k));
  }

  // ----- The timetable is kept -----

  /** Devices are waiting only while one of them runs, and those due in this tick have been released. */
  ghost predicate Prompt(k: Kernel) {
    && Orderly(k) && (!DeviceRunning(k) ==> k.devices == [])
    && k.lastReleased == k.tick
  }

  /** Slot and age are as due, once the time-up test has been applied to the time had. */
  ghost predicate OnSchedule(plan: Plan, k: Kernel, due: (nat, int)) {
    && Inv(plan, k) && k.index != INVALID_IDX && DebtOk(k) && Prompt(k)
    && Normal(plan, k.index, TimeHad(k)) == due
    && (!DeviceRunning(k) ==> (k.index, k.tick - k.lastChange) == due)
  }

  ghost predicate DueOk(plan: Plan, due: (nat, int)) {
    WellFormedPlan(plan) && due.0 < |plan.maxes| && 0 <= due.1 <= plan.maxes[due.0]
  }

  lemma MovesOnSchedule(plan: Plan, index: nat, had: int, k': Kernel, due: (nat, int))
    requires WellFormedPlan(plan) && index < |plan.names| && Normal(plan, index, had) == due && DueOk(plan, due)
    requires Inv(plan, k') && Moves(plan, index, had, k') && Prompt(k')
    ensures OnSchedule(plan, k', due)
  {
  }

  lemma NobodyQueuedIsCalm(v: Variant, k: Kernel)
    requires TableOk(k) && k.devices == [] && !DeviceRunning(k)
    ensures Calm(v, k)
  {
    DuesAreLive(k);
  }

  lemma PromptAfterCheck(plan: Plan, v: Variant, k: Kernel, e: Event)
    requires Inv(plan, k) && Orderly(k) && k.lastReleased == k.tick && k.index != INVALID_IDX
    requires Allowed(plan, k, e) && Checks(k, e) && InTime(v, k, e)
    ensures Step(plan, v, k, e).Running? && Prompt(Step(plan, v, k, e).k)
  {
    hide Check, Step, Core, Checks, CheckStart, InTime, Allowed;
    CalmStepOk(plan, v, k, e);
    InvClock(plan, k);
    StepClock(plan, v, k, e, Step(plan, v, k, e).k);
    HeadIsLive(Step(plan, v, k, e).k);
  }

  lemma InvClock(plan: Plan, k: Kernel)
    requires Inv(plan, k)
    ensures ClockOk(k) && TableOk(k) && WellFormed(plan, k)
  {
  }

  lemma HeadIsLive(k: Kernel)
    requires Orderly(k) && HeadRuns(k)
    ensures k.devices != [] ==> DeviceRunning(k)
  {
    if k.devices != [] {
      assert k.devices[0] in k.devices;
    }
  }

  lemma TickInTime(plan: Plan, v: Variant, k: Kernel)
    requires Inv(plan, k) && Prompt(k) && !DeviceRunning(k)
    ensures InTime(v, k, Timer)
  {
    NobodyQueuedIsCalm(v, k.(tick := k.tick + 1));
  }

  lemma TickOnSchedule(plan: Plan, v: Variant, k: Kernel, due: (nat, int))
    requires OnSchedule(plan, k, due) && DueOk(plan, due) && !DeviceRunning(k)
    ensures Step(plan, v, k, Timer).Running?
    ensures OnSchedule(plan, Step(plan, v, k, Timer).k, Normal(plan, due.0, due.1 + 1))
    ensures Step(plan, v, k, Timer).k.tick == k.tick + 1
  {
    hide Check, Moves, Core, FlagsOk, BeforeCheck, Prompt, InTime, Step;
    var k1 := CheckStart(k, Timer);
    TickInTime(plan, v, k);
    PromptOrderly(k);
    PromptAfterCheck(plan, v, k, Timer);
    StepOk(plan, v, k, Timer);
    CheckStartOk(plan, k, Timer);
    StepIsItsCheck(plan, v, k, Timer);
    CheckMoves(plan, v, k1);
    MovesOnSchedule(plan, k.index, due.1 + 1, Step(plan, v, k, Timer).k, Normal(plan, due.0, due.1 + 1));
  }

  lemma PromptOrderly(k: Kernel)
    requires Prompt(k)
    ensures Orderly(k) && k.lastReleased == k.tick && (!DeviceRunning(k) ==> k.devices == [])
  {
  }

  lemma MarkedForCheck(plan: Plan, k: Kernel)
    requires Inv(plan, k) && k.current != INVALIDPID && DebtOk(k) && Checks(k, Yields)
    ensures var k1 := CheckStart(k, Yields);
            && DebtOk(k1) && Flagged(k1.procs, k1.current) && TimeHad(k1) == TimeHad(k)
            && k1.index == k.index && k1.tick == k.tick
            && (DeviceRunning(k1) <==> DeviceRunning(k))
  {
    MarkYieldedOk(plan, k);
    SameLevels(k.procs, MarkYielded(k).k.procs, k.current);
  }

  /** In the tick of their release and of the last dispatch, a yield releases no device again. */
  lemma YieldInTime(plan: Plan, v: Variant, k: Kernel)
    requires Inv(plan, k) && k.current != INVALIDPID && DebtOk(k) && Prompt(k)
    ensures InTime(v, k, Yields)
  {
    if Checks(k, Yields) {
      MarkYieldedOk(plan, k);
      MarkedForCheck(plan, k);
      var k1 := CheckStart(k, Yields);
      if DeviceRunning(k) {
        assert Released(v, k1) == [];
      } else {
        NobodyQueuedIsCalm(v, k1);
      }
    }
  }

  lemma YieldOnSchedule(plan: Plan, v: Variant, k: Kernel, due: (nat, int))
    requires OnSchedule(plan, k, due) && DueOk(plan, due) && Allowed(plan, k, Yields)
    ensures Step(plan, v, k, Yields).Running? && OnSchedule(plan, Step(plan, v, k, Yields).k, due)
    ensures Step(plan, v, k, Yields).k.tick == k.tick
  {
    hide Check, Moves, Core, FlagsOk, BeforeCheck, Prompt, InTime, MarkYielded, Yield;
    YieldIsCheck(plan, v, k);
    if Checks(k, Yields) {
      var k1 := CheckStart(k, Yields);
      YieldInTime(plan, v, k);
      PromptOrderly(k);
      PromptAfterCheck(plan, v, k, Yields);
      StepOk(plan, v, k, Yields);
      CheckStartOk(plan, k, Yields);
      MarkedForCheck(plan, k);
      CheckMoves(plan, v, k1);
      MovesOnSchedule(plan, k.index, TimeHad(k), Check(plan, v, k1).k, due);
    }
  }

  /** A call that only touches the process table and the rings. */
  lemma CallOnSchedule(plan: Plan, k: Kernel, k': Kernel, due: (nat, int))
    requires OnSchedule(plan, k, due) && Inv(plan, k') && Prompt(k')
    requires k'.index == k.index && k'.lastChange == k.lastChange && k'.debt == k.debt && k'.tick == k.tick
    requires DeviceRunning(k') <==> DeviceRunning(k)
    ensures OnSchedule(plan, k', due)
  {
  }

  lemma CreateOnSchedule(plan: Plan, k: Kernel, level: Level, n: nat, due: (nat, int))
    requires OnSchedule(plan, k, due) && Allowed(plan, k, Creates(level, n))
    ensures OnSchedule(plan, Create(k, level, n).0, due) && Create(k, level, n).0.tick == k.tick
  {
    CreateOk(plan, k, level, n);
    var k' := Create(k, level, n).0;
    if k' != k {
      RingFits(k.procs, k.sporadic, Sporadic);
      CreateGains(k, level, n);
      SameDevice(k, k', level, n);
      CallOnSchedule(plan, k, k', due);
    }
  }

  lemma SameDevice(k: Kernel, k': Kernel, level: Level, n: nat)
    requires Gains(k, k', level, n) && (k.current == INVALIDPID || LivePid(k.procs, k.current))
    ensures DeviceRunning(k') <==> DeviceRunning(k)
  {
  }

  lemma TerminateOnSchedule(plan: Plan, v: Variant, k: Kernel, due: (nat, int))
    requires OnSchedule(plan, k, due) && !DeviceRunning(k) && k.current != INVALIDPID && k.current != plan.idle
    ensures Terminate(v, k).Running? && OnSchedule(plan, Terminate(v, k).k, due) && Terminate(v, k).k.tick == k.tick
  {
    TerminateOk(plan, v, k);
    CallOnSchedule(plan, k, Terminate(v, k).k, due);
  }

  /** A device that terminates leaves the plan on schedule exactly if no time of the slot is in debt, and no
      other device waits, which would not be dispatched before the next tick. */
  lemma DeviceTerminationIff(plan: Plan, v: Variant, k: Kernel, due: (nat, int))
    requires OnSchedule(plan, k, due) && DueOk(plan, due) && DeviceRunning(k)
    ensures Terminate(v, k).Running?
    ensures OnSchedule(plan, Terminate(v, k).k, due) <==> k.debt == 0 && |k.devices| == 1
  {
    hide SporadicOk, DevicesOk, IdleOk, PlanOk, TableOk, FlagsOk;
    DeviceIsNotIdle(plan, k);
    TerminateOk(plan, v, k);
    TerminatePops(plan, v, k);
  }

  lemma DeviceIsNotIdle(plan: Plan, k: Kernel)
    requires Inv(plan, k) && DeviceRunning(k)
    ensures k.current != plan.idle && k.current != INVALIDPID
  {
    var i :| 0 <= i < |k.procs| && k.procs[i].pid == k.current && k.procs[i].level == Device;
    LevelUnique(k, i);
  }

  lemma TerminatePops(plan: Plan, v: Variant, k: Kernel)
    requires Inv(plan, k) && DeviceRunning(k) && Terminate(v, k).Running?
    ensures var k' := Terminate(v, k).k;
            && k.devices != [] && k' == k.(procs := k'.procs, devices := k.devices[1..], current := INVALIDPID)
            && !DeviceRunning(k')
  {
    var i :| 0 <= i < |k.procs| && k.procs[i].pid == k.current && k.procs[i].level == Device;
    SlotOfIs(k, i);
  }

  /** Devices yield in the tick in which they are dispatched, and none terminates. */
  ghost predicate Punctual(k: Kernel, e: Event) {
    e == Timer || e == Terminates ==> !DeviceRunning(k)
  }

  /** What is due after the event. */
  function DueAfter(plan: Plan, e: Event, due: (nat, int)): (d: (nat, int))
    requires DueOk(plan, due)
    ensures DueOk(plan, d)
  {
    if e == Timer then Normal(plan, due.0, due.1 + 1) else due
  }

  lemma StepOnSchedule(plan: Plan, v: Variant, k: Kernel, e: Event, due: (nat, int))
    requires OnSchedule(plan, k, due) && DueOk(plan, due) && Allowed(plan, k, e) && Punctual(k, e)
    ensures Step(plan, v, k, e).Running? && OnSchedule(plan, Step(plan, v, k, e).k, DueAfter(plan, e, due))
    ensures Step(plan, v, k, e).k.tick == if e == Timer then k.tick + 1 else k.tick
  {
    hide Check, Yield, Terminate, Create, OnSchedule;
    match e
    case Timer => TickOnSchedule(plan, v, k, due);
    case Yields => YieldOnSchedule(plan, v, k, due);
    case Terminates => TerminateOnSchedule(plan, v, k, due);
    case Creates(level, n) => CreateOnSchedule(plan, k, level, n, due);
  }

  /** The launch: the first tick, if no device is due by then, puts the plan at age 0 of slot 0. */
  lemma LaunchOnSchedule(plan: Plan, v: Variant, k: Kernel, k1: Kernel)
    requires Inv(plan, k) && k.index == INVALID_IDX && k.devices == [] && k.debt == 0 && k.lastReleased <= k.tick
    requires k1 == k.(tick := k.tick + 1) && Released(v, k1) == []
    ensures Check(plan, v, k1).Running? && OnSchedule(plan, Check(plan, v, k1).k, (0, 0))
    ensures Timetable(plan, 0) == (0, 0) && Check(plan, v, k1).k.tick == k1.tick
  {
    hide SporadicOk, DevicesOk, IdleOk, PlanOk, FlagsOk, TableOk, DueFrom, PidFromName, CheckQueued, CheckPlan;
    ReadyForCheck(plan, k, k1);
    var k2 := AfterRelease(v, k1);
    CheckOk(plan, v, k1);
    ReleaseOk(plan, v, k1);
    ReleaseKeepsReady(plan, v, k1);
    PlanIsChecked(plan, v, k1);
    CheckClock(plan, v, k1);
    LaunchOk(plan, v, k2);
    LaunchSlot(plan, v, k2);
    assert Decode(plan.maxes, 0, 0) == (0, 0);
  }

  lemma LaunchSlot(plan: Plan, v: Variant, k: Kernel)
    requires WellFormed(plan, k) && k.index == INVALID_IDX && CheckPlan(plan, v, k).Running?
    ensures var k' := CheckPlan(plan, v, k).k;
            k'.index == 0 && k'.lastChange == k.tick && k'.tick == k.tick && k'.debt == k.debt
  {
  }

  /** Slot and age are what the timetable, counted from the launch, says. */
  ghost predicate OnTimetable(plan: Plan, k: Kernel, launch: int) {
    WellFormedPlan(plan) && launch <= k.tick && OnSchedule(plan, k, Timetable(plan, k.tick - launch))
  }

  lemma StepOnTimetable(plan: Plan, v: Variant, k: Kernel, e: Event, k': Kernel, launch: int)
    requires OnTimetable(plan, k, launch) && Follows(plan, v, k, e, k') && Punctual(k, e)
    ensures OnTimetable(plan, k', launch)
  {
    hide Step, OnSchedule, Allowed, Timetable, Normal;
    StepOnSchedule(plan, v, k, e, Timetable(plan, k.tick - launch));
    TimetableStep(plan, k.tick - launch);
  }

  /** Whatever yields, creations and terminations happen: once the plan stands where the timetable says, it
      does so after every event. */
  lemma {:induction false} TimetableIsKept(plan: Plan, v: Variant, ks: seq<Kernel>, es: seq<Event>,
        launch: int, start: nat, i: nat)
    requires Trace(plan, v, ks, es) && start <= i < |ks| && OnTimetable(plan, ks[start], launch)
    requires forall j | start <= j < |es| :: Punctual(ks[j], es[j])
    ensures OnTimetable(plan, ks[i], launch)
    decreases i
  {
    hide Step, OnTimetable, Allowed;
    if i > start {
      TimetableIsKept(plan, v, ks, es, launch, start, i - 1);
      assert Follows(plan, v, ks[i - 1], es[i - 1], ks[i - 1 + 1]);
      StepOnTimetable(plan, v, ks[i - 1], es[i - 1], ks[i], launch);
    }
  }

  // ----- From boot on -----

  /** Before the first tick: nobody runs and no device is queued. */
  ghost predicate Waiting(plan: Plan, k: Kernel) {
    && Inv(plan, k) && k.index == INVALID_IDX && k.current == INVALIDPID
    && k.devices == [] && k.debt == 0 && k.tick == 0 == k.lastReleased == k.lastChange
  }

  lemma StepKeepsWaiting(plan: Plan, v: Variant, k: Kernel, e: Event, k': Kernel)
    requires Waiting(plan, k) && Follows(plan, v, k, e, k') && e != Timer
    ensures Waiting(plan, k')
  {
    hide Inv;
    StepOk(plan, v, k, e);
  }

  lemma FirstTickLaunches(plan: Plan, v: Variant, k: Kernel, k': Kernel)
    requires Waiting(plan, k) && Follows(plan, v, k, Timer, k') && Released(v, k.(tick := 1)) == []
    ensures k'.tick == 1 && OnTimetable(plan, k', 1)
  {
    hide Check, OnSchedule, Inv;
    LaunchOnSchedule(plan, v, k, k.(tick := 1));
    WellFormedFromInv(plan, k);
  }

  lemma BootWaits(plan: Plan)
    requires WellFormedPlan(plan) && 0 !in plan.names
    ensures Waiting(plan, Boot(plan))
  {
    hide Inv;
    BootOk(plan);
  }

  // ----- Launching with a debt -----

  /** Before the launch. There is a debt exactly if a device has been dispatched. */
  ghost predicate Unlaunched(plan: Plan, k: Kernel) {
    Inv(plan, k) && k.index == INVALID_IDX && (k.debt == 0 ==> Waiting(plan, k))
  }

  /** A check before the launch dispatches a device and makes a debt, or launches the plan and keeps the debt. */
  lemma CheckUnlaunched(plan: Plan, v: Variant, k: Kernel)
    requires Ready(plan, k) && k.index == INVALID_IDX && Check(plan, v, k).Running?
    requires k.debt == 0 ==> k.lastChange < k.tick
    ensures var k' := Check(plan, v, k).k;
            if NoDeviceFirst(v, k) then k'.index == 0 && k'.lastChange == k'.tick && k'.debt == k.debt
            else k'.index == INVALID_IDX && k'.debt > 0
  {
    hide CheckPlan, SporadicOk, DevicesOk, IdleOk, PlanOk, FlagsOk;
    if NoDeviceFirst(v, k) {
      PlanIsChecked(plan, v, k);
      LaunchSlot(plan, v, AfterRelease(v, k));
    } else {
      CheckIsQueued(plan, v, k);
    }
  }

  lemma StepUnlaunched(plan: Plan, v: Variant, k: Kernel, e: Event, k': Kernel)
    requires Unlaunched(plan, k) && Follows(plan, v, k, e, k')
    ensures k'.index == INVALID_IDX ==> Unlaunched(plan, k')
    ensures k'.index != INVALID_IDX ==> k'.index == 0 && k'.lastChange == k'.tick && k'.debt == k.debt
    ensures k'.index != INVALID_IDX && k.debt == 0 ==> e == Timer && Released(v, k.(tick := 1)) == []
  {
    hide Check, Inv, Step, MarkYielded;
    StepOk(plan, v, k, e);
    if Checks(k, e) {
      StepIsItsCheck(plan, v, k, e);
      CheckStartOk(plan, k, e);
      CheckStartClock(plan, k, e);
      CheckUnlaunched(plan, v, CheckStart(k, e));
      if k.debt == 0 {
        FirstDue(plan, v, CheckStart(k, e));
      }
    } else {
      CallUnlaunched(plan, v, k, e, k');
    }
  }

  lemma FirstDue(plan: Plan, v: Variant, k: Kernel)
    requires Core(plan, k) && k.devices == [] && k.current == INVALIDPID
    ensures NoDeviceFirst(v, k) ==> Released(v, k) == []
  {
    DuesAreLive(k);
    if Released(v, k) != [] {
      assert Released(v, k)[0] in DueFrom(k.procs, k.tick, 0);
    }
  }

  lemma CheckStartClock(plan: Plan, k: Kernel, e: Event)
    requires Inv(plan, k) && Allowed(plan, k, e) && Checks(k, e)
    ensures var k1 := CheckStart(k, e);
            && k1.index == k.index && k1.debt == k.debt && k1.lastChange == k.lastChange
            && k1.tick == if e == Timer then k.tick + 1 else k.tick
  {
    if e == Yields {
      MarkYieldedOk(plan, k);
    }
  }

  lemma CallUnlaunched(plan: Plan, v: Variant, k: Kernel, e: Event, k': Kernel)
    requires Unlaunched(plan, k) && Follows(plan, v, k, e, k') && !Checks(k, e)
    ensures Unlaunched(plan, k')
  {
    hide Check, Inv, Yield;
    StepOk(plan, v, k, e);
    if e == Yields {
      YieldIsCheck(plan, v, k);
    }
    if k.debt == 0 {
      StepKeepsWaiting(plan, v, k, e, k');
    }
  }

  lemma {:induction false} StaysUnlaunched(plan: Plan, v: Variant, ks: seq<Kernel>, es: seq<Event>, i: nat)
    requires Trace(plan, v, ks, es) && Unlaunched(plan, ks[0]) && i < |ks|
    requires forall j | 0 <= j <= i :: ks[j].index == INVALID_IDX
    ensures Unlaunched(plan, ks[i])
  {
    hide Step, Unlaunched, Allowed;
    if i > 0 {
      StaysUnlaunched(plan, v, ks, es, i - 1);
      assert Follows(plan, v, ks[i - 1], es[i - 1], ks[i - 1 + 1]);
      StepUnlaunched(plan, v, ks[i - 1], es[i - 1], ks[i]);
    }
  }

  lemma LaunchedByCheck(plan: Plan, v: Variant, k: Kernel, e: Event, k': Kernel)
    requires Unlaunched(plan, k) && Follows(plan, v, k, e, k') && k'.index != INVALID_IDX
    ensures !DeviceRunning(k')
  {
    hide Check, CheckPlan, CheckQueued, MarkYielded, Step, SporadicOk, DevicesOk, IdleOk, PlanOk;
    if Checks(k, e) {
      var k1 := CheckStart(k, e);
      StepIsItsCheck(plan, v, k, e);
      CheckStartOk(plan, k, e);
      CheckStartClock(plan, k, e);
      CheckUnlaunched(plan, v, k1);
      PlanIsChecked(plan, v, k1);
      ReleaseKeepsReady(plan, v, k1);
      LaunchOk(plan, v, AfterRelease(v, k1));
    } else {
      CallUnlaunched(plan, v, k, e, k');
    }
  }

  /** The launch begins slot 0 at age 0. It puts the plan on its timetable exactly if there is no debt then,
      that is, if no device was dispatched before; the check does not clear the debt. */
  lemma LaunchOnScheduleIff(plan: Plan, v: Variant, ks: seq<Kernel>, es: seq<Event>, launch: nat)
    requires WellFormedPlan(plan) && 0 !in plan.names && Trace(plan, v, ks, es) && ks[0] == Boot(plan)
    requires launch < |es| && ks[launch + 1].index != INVALID_IDX
    requires forall j | 0 <= j <= launch :: ks[j].index == INVALID_IDX
    ensures var k := ks[launch + 1];
            && k.index == 0 && k.lastChange == k.tick && k.debt == ks[launch].debt
            && (OnTimetable(plan, k, k.tick) <==> ks[launch].debt == 0)
    ensures ks[launch].debt == 0 ==>
              es[launch] == Timer && ks[launch + 1].tick == 1 && Released(v, ks[launch].(tick := 1)) == []
  {
    hide Step, Inv, Allowed, OnSchedule, Waiting, Released;
    var k, k' := ks[launch], ks[launch + 1];
    BootWaits(plan);
    BootUnlaunched(plan);
    StaysUnlaunched(plan, v, ks, es, launch);
    assert Follows(plan, v, k, es[launch], k');
    StepUnlaunched(plan, v, k, es[launch], k');
    if k.debt == 0 {
      FirstTickLaunches(plan, v, k, k');
    } else {
      LaunchedByCheck(plan, v, k, es[launch], k');
      OffTimetable(plan, k');
    }
  }

  lemma BootUnlaunched(plan: Plan)
    requires Waiting(plan, Boot(plan))
    ensures Unlaunched(plan, Boot(plan))
  {
  }

  lemma OffTimetable(plan: Plan, k: Kernel)
    requires k.debt != 0 && !DeviceRunning(k)
    ensures !OnTimetable(plan, k, k.tick)
  {
  }

  /** From boot on: if the plan is launched without a debt, and from then on devices yield in the tick in
      which they are dispatched and none terminates, the plan stands after every event exactly where the
      timetable, counted from the launch, says. */
  lemma TimetableFromBoot(plan: Plan, v: Variant, ks: seq<Kernel>, es: seq<Event>, launch: nat, i: nat)
    requires WellFormedPlan(plan) && 0 !in plan.names && Trace(plan, v, ks, es) && ks[0] == Boot(plan)
    requires launch < |es| && ks[launch + 1].index != INVALID_IDX
    requires forall j | 0 <= j <= launch :: ks[j].index == INVALID_IDX
    requires ks[launch].debt == 0 && forall j | launch < j < |es| :: Punctual(ks[j], es[j])
    requires launch < i < |ks|
    ensures OnTimetable(plan, ks[i], ks[launch + 1].tick)
    ensures !DeviceRunning(ks[i]) ==> ks[i].index == Timetable(plan, ks[i].tick - ks[launch + 1].tick).0
  {
    hide Step, Allowed, Timetable, Normal;
    LaunchOnScheduleIff(plan, v, ks, es, launch);
    TimetableIsKept(plan, v, ks, es, ks[launch + 1].tick, launch + 1, i);
  }
}
