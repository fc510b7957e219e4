/** The invariant of the scheduler, and exactly when a step aborts. */
module SchedulerInvariant {
  import opened Scheduler
  import opened Sequences

  /** pid is the pid of a live process of this level. */
  ghost predicate LiveAt(procs: seq<Process>, pid: nat, level: Level) {
    exists i :: 0 <= i < |procs| && procs[i].pid == pid && procs[i].level == level && pid != INVALIDPID
  }

  ghost predicate LivePid(procs: seq<Process>, pid: nat) {
    exists i :: 0 <= i < |procs| && procs[i].pid == pid && pid != INVALIDPID
  }

  /** Live pids are distinct and below the counter. */
  ghost predicate TableOk(k: Kernel) {
    && 0 < k.nextPid
    && (forall i | 0 <= i < |k.procs| :: k.procs[i].pid < k.nextPid)
    && (forall i, j | 0 <= i < j < |k.procs| :: Live(k.procs[i]) ==> k.procs[i].pid != k.procs[j].pid)
  }

  /** The sporadic ring holds exactly the live sporadic processes, without repeats. */
  ghost predicate SporadicOk(k: Kernel) {
    && Distinct(k.sporadic)
    && (forall pid | pid in k.sporadic :: LiveAt(k.procs, pid, Sporadic))
    && (forall i | 0 <= i < |k.procs| ::
          Live(k.procs[i]) && k.procs[i].level == Sporadic ==> k.procs[i].pid in k.sporadic)
  }

  /** The device ring holds pids that were issued to devices, some of which may be dead. */
  ghost predicate DevicesOk(k: Kernel) {
    && (forall pid | pid in k.devices :: 0 < pid < k.nextPid)
    && (forall i | 0 <= i < |k.procs| :: k.procs[i].pid in k.devices ==> k.procs[i].level == Device)
  }

  ghost predicate IdleOk(plan: Plan, k: Kernel) {
    && LiveAt(k.procs, plan.idle, IdlePriority)
    && (forall i | 0 <= i < |k.procs| ::
          Live(k.procs[i]) && k.procs[i].level == IdlePriority ==> k.procs[i].pid == plan.idle)
  }

  /** Names of the plan, other than IDLE, are used by periodic processes only. */
  ghost predicate PlanOk(plan: Plan, k: Kernel) {
    forall i | 0 <= i < |k.procs| ::
      Live(k.procs[i]) && k.procs[i].n in plan.names ==> k.procs[i].level == Periodic
  }

  ghost predicate ClockOk(k: Kernel) {
    k.lastChange <= k.tick && 0 <= k.debt
  }

  /** Everything that does not depend on who is running. */
  ghost predicate Core(plan: Plan, k: Kernel) {
    && WellFormed(plan, k) && TableOk(k) && SporadicOk(k) && DevicesOk(k) && IdleOk(plan, k) && PlanOk(plan, k)
    && ClockOk(k) && RatesOk(k.procs) && NamesFit(k.procs)
  }

  /** Only the running process can have its yielded flag set. */
  ghost predicate FlagsOk(k: Kernel) {
    forall i | 0 <= i < |k.procs| :: Live(k.procs[i]) && k.procs[i].yielded ==> k.procs[i].pid == k.current
  }

  /** pid may have the processor: a sporadic process or a device only from the front of its ring,
      the idle process only while no sporadic process exists. */
  ghost predicate MayRun(plan: Plan, k: Kernel, pid: nat) {
    && LivePid(k.procs, pid)
    && (LiveAt(k.procs, pid, Sporadic) ==> k.sporadic != [] && k.sporadic[0] == pid)
    && (LiveAt(k.procs, pid, Device) ==> k.devices != [] && k.devices[0] == pid)
    && (pid == plan.idle ==> k.sporadic == [])
  }

  ghost predicate Flagged(procs: seq<Process>, pid: nat) {
    exists i :: 0 <= i < |procs| && procs[i].pid == pid && procs[i].yielded && pid != INVALIDPID
  }

  ghost predicate CurrentOk(plan: Plan, k: Kernel) {
    k.current != INVALIDPID ==>
      MayRun(plan, k, k.current) && (LiveAt(k.procs, k.current, Device) ==> !Flagged(k.procs, k.current))
  }

  ghost predicate Inv(plan: Plan, k: Kernel) {
    Core(plan, k) && FlagsOk(k) && CurrentOk(plan, k)
  }

  // ----- Lookups -----

  lemma SlotOfIs(k: Kernel, i: nat)
    requires TableOk(k) && i < |k.procs| && Live(k.procs[i])
    ensures SlotOf(k.procs, k.procs[i].pid) == i
  {
  }

  lemma SlotOfLive(procs: seq<Process>, pid: nat)
    requires LivePid(procs, pid)
    ensures SlotOf(procs, pid) < |procs|
  {
  }

  /** Two tables that differ in yielded flags only. */
  ghost predicate SameButFlags(a: seq<Process>, b: seq<Process>) {
    |a| == |b| && forall i | 0 <= i < |a| :: a[i].pid == b[i].pid && a[i].level == b[i].level && a[i].n == b[i].n
  }

  lemma SameLevels(a: seq<Process>, b: seq<Process>, pid: nat)
    requires SameButFlags(a, b)
    ensures forall level :: LiveAt(a, pid, level) <==> LiveAt(b, pid, level)
    ensures LivePid(a, pid) <==> LivePid(b, pid)
  {
    assert forall i | 0 <= i < |a| :: a[i].pid == b[i].pid && a[i].level == b[i].level;
  }

  lemma UnflagSame(procs: seq<Process>, pid: nat)
    ensures SameButFlags(procs, Unflag(procs, pid))
  {
  }

  lemma CoreIgnoresFlags(plan: Plan, k: Kernel, procs: seq<Process>, current: nat)
    requires Core(plan, k) && SameButFlags(k.procs, procs)
    ensures Core(plan, k.(procs := procs, current := current))
  {
    var k' := k.(procs := procs, current := current);
    forall pid, level | LiveAt(k.procs, pid, level)
      ensures LiveAt(procs, pid, level)
    {
      var i :| 0 <= i < |k.procs| && k.procs[i].pid == pid && k.procs[i].level == level && pid != INVALIDPID;
      assert procs[i].pid == pid;
    }
  }

  lemma MayRunIgnoresFlags(plan: Plan, k: Kernel, procs: seq<Process>, current: nat, pid: nat)
    requires SameButFlags(k.procs, procs) && MayRun(plan, k, pid)
    ensures MayRun(plan, k.(procs := procs, current := current), pid)
  {
    var i :| 0 <= i < |k.procs| && k.procs[i].pid == pid && pid != INVALIDPID;
    assert procs[i].pid == pid;
    forall level | LiveAt(procs, pid, level)
      ensures LiveAt(k.procs, pid, level)
    {
      var j :| 0 <= j < |procs| && procs[j].pid == pid && procs[j].level == level && pid != INVALIDPID;
      assert k.procs[j].pid == pid;
    }
  }

  // ----- Switching and dispatching -----

  /** Switching to a process that may run establishes the invariant. */
  lemma SwitchOk(plan: Plan, k: Kernel, pid: nat)
    requires Core(plan, k) && FlagsOk(k) && MayRun(plan, k, pid)
    requires k.current == INVALIDPID || LivePid(k.procs, k.current)
    requires pid == k.current ==> !LiveAt(k.procs, pid, Device)
    ensures Switch(k, pid).Running? && Inv(plan, Switch(k, pid).k) && Switch(k, pid).k.current == pid
    ensures SameButFlags(k.procs, Switch(k, pid).k.procs)
    ensures Switch(k, pid).k == k.(procs := Switch(k, pid).k.procs, current := pid)
  {
    if pid != k.current {
      var procs := Unflag(k.procs, k.current);
      UnflagSame(k.procs, k.current);
      CoreIgnoresFlags(plan, k, procs, pid);
      MayRunIgnoresFlags(plan, k, procs, pid, pid);
      if k.current != INVALIDPID {
        SlotOfLive(k.procs, k.current);
      }
      SlotOfLive(procs, pid);
      UnflagClears(k);
    }
  }

  lemma UnflagClears(k: Kernel)
    requires TableOk(k) && FlagsOk(k)
    ensures forall i | 0 <= i < |k.procs| :: Live(k.procs[i]) ==> !Unflag(k.procs, k.current)[i].yielded
  {
    forall i | 0 <= i < |k.procs| && Live(k.procs[i])
      ensures !Unflag(k.procs, k.current)[i].yielded
    {
      SlotOfIs(k, i);
    }
  }

  /** A name of the plan resolves to a live periodic process, or to nobody. */
  lemma NamedIsPeriodic(plan: Plan, k: Kernel, name: int)
    requires Core(plan, k) && name in plan.names && PidFromName(k.procs, name) != INVALIDPID
    ensures LiveAt(k.procs, PidFromName(k.procs, name), Periodic) && MayRun(plan, k, PidFromName(k.procs, name))
  {
    var i := NamedFrom(k.procs, name, 0);
    assert Live(k.procs[i]) && k.procs[i].level == Periodic;
    LevelUnique(k, i);
  }

  lemma LevelUnique(k: Kernel, i: nat)
    requires TableOk(k) && i < |k.procs| && Live(k.procs[i])
    ensures forall level :: LiveAt(k.procs, k.procs[i].pid, level) <==> k.procs[i].level == level
  {
  }

  lemma DispatchOk(plan: Plan, k: Kernel, next: nat, gaveUp: bool)
    requires Core(plan, k) && FlagsOk(k)
    requires k.current == INVALIDPID || LivePid(k.procs, k.current)
    requires next != INVALIDPID && !gaveUp ==> MayRun(plan, k, next) && !LiveAt(k.procs, next, Device)
    ensures Dispatch(plan, k, next, gaveUp).Running? && Inv(plan, Dispatch(plan, k, next, gaveUp).k)
    ensures var k' := Dispatch(plan, k, next, gaveUp).k;
            && SameButFlags(k.procs, k'.procs) && k' == k.(procs := k'.procs, current := k'.current)
            && k'.current != INVALIDPID && !LiveAt(k'.procs, k'.current, Device)
            && (next != INVALIDPID && !gaveUp ==> k'.current == next)
            && (next == INVALIDPID || gaveUp ==> k'.current == if k.sporadic == [] then plan.idle else k.sporadic[0])
  {
    var user := if |k.sporadic| == 0 then plan.idle else k.sporadic[0];
    var target := if next == INVALIDPID || gaveUp then user else next;
    if next == INVALIDPID || gaveUp {
      if |k.sporadic| == 0 {
        IdleMayRun(plan, k);
      } else {
        HeadMayRun(plan, k);
      }
    }
    SwitchOk(plan, k, target);
    NotDeviceStill(k.procs, Switch(k, target).k.procs, target);
  }

  lemma NotDeviceStill(a: seq<Process>, b: seq<Process>, pid: nat)
    requires SameButFlags(a, b) && !LiveAt(a, pid, Device)
    ensures !LiveAt(b, pid, Device)
  {
    forall j | 0 <= j < |b| && b[j].pid == pid && pid != INVALIDPID
      ensures b[j].level != Device
    {
      assert a[j].pid == pid;
    }
  }

  lemma IdleMayRun(plan: Plan, k: Kernel)
    requires Core(plan, k) && k.sporadic == []
    ensures MayRun(plan, k, plan.idle) && !LiveAt(k.procs, plan.idle, Device)
  {
    var i :| 0 <= i < |k.procs| && k.procs[i].pid == plan.idle && k.procs[i].level == IdlePriority;
    LevelUnique(k, i);
  }

  lemma HeadMayRun(plan: Plan, k: Kernel)
    requires Core(plan, k) && k.sporadic != []
    ensures MayRun(plan, k, k.sporadic[0]) && !LiveAt(k.procs, k.sporadic[0], Device)
  {
    assert k.sporadic[0] in k.sporadic;
    var i :| 0 <= i < |k.procs| && k.procs[i].pid == k.sporadic[0] && k.procs[i].level == Sporadic;
    LevelUnique(k, i);
  }

  // ----- check_schedule -----

  /** What holds of the running process when a check starts; it may have yielded just now. */
  ghost predicate BeforeCheck(plan: Plan, k: Kernel) {
    k.current != INVALIDPID ==>
      && LivePid(k.procs, k.current)
      && (LiveAt(k.procs, k.current, Sporadic) ==> k.sporadic != [] && k.sporadic[0] == k.current)
      && (LiveAt(k.procs, k.current, Device) && !Flagged(k.procs, k.current) ==>
            k.devices != [] && k.devices[0] == k.current)
      && (k.current == plan.idle ==> k.sporadic == [])
  }

  /** The outcome of a check that leaves the devices alone and some process running that is no device. */
  ghost predicate Settled(plan: Plan, k: Kernel, o: Outcome) {
    && o.Running? && Inv(plan, o.k)
    && o.k.current != INVALIDPID && !LiveAt(o.k.procs, o.k.current, Device)
    && o.k.devices == k.devices && o.k.index != INVALID_IDX && SameButFlags(k.procs, o.k.procs)
  }

  /** Dispatching the process of the current slot. */
  lemma DispatchNamedOk(plan: Plan, k: Kernel, gaveUp: bool)
    requires Core(plan, k) && FlagsOk(k) && k.index != INVALID_IDX
    requires k.current == INVALIDPID || LivePid(k.procs, k.current)
    ensures Settled(plan, k, Dispatch(plan, k, PidFromName(k.procs, plan.names[k.index]), gaveUp))
  {
    var named := PidFromName(k.procs, plan.names[k.index]);
    if named != INVALIDPID {
      NamedIsPeriodic(plan, k, plan.names[k.index]);
      PeriodicOnly(k, named);
    }
    DispatchOk(plan, k, named, gaveUp);
  }

  lemma SlotCheckOk(plan: Plan, v: Variant, k: Kernel, age: int, next: nat, gaveUp: bool)
    requires Core(plan, k) && FlagsOk(k) && k.index != INVALID_IDX
    requires k.current == INVALIDPID || LivePid(k.procs, k.current)
    requires next != INVALIDPID && !gaveUp ==> MayRun(plan, k, next) && !LiveAt(k.procs, next, Device)
    ensures Settled(plan, k, SlotCheck(plan, v, k, age, next, gaveUp))
  {
    hide Dispatch;
    if plan.maxes[k.index] < age {
      var k1 := k.(lastChange := k.tick, index := NextSlot(plan, k.index));
      CoreIgnoresSlot(plan, k, k1);
      DispatchNamedOk(plan, k1, gaveUp && !v.forgetOnChange);
    } else {
      DispatchOk(plan, k, next, gaveUp);
    }
  }

  lemma CoreIgnoresSlot(plan: Plan, k: Kernel, k': Kernel)
    requires Core(plan, k) && WellFormed(plan, k') && ClockOk(k')
    requires k' == k.(lastChange := k'.lastChange, index := k'.index, debt := k'.debt,
                      tick := k'.tick, lastReleased := k'.lastReleased)
    ensures Core(plan, k')
  {
  }

  lemma PeriodicOnly(k: Kernel, pid: nat)
    requires TableOk(k) && LiveAt(k.procs, pid, Periodic)
    ensures !LiveAt(k.procs, pid, Device)
  {
    var i :| 0 <= i < |k.procs| && k.procs[i].pid == pid && k.procs[i].level == Periodic && pid != INVALIDPID;
    LevelUnique(k, i);
  }

  lemma RotateOk(plan: Plan, k: Kernel)
    requires Core(plan, k) && k.sporadic != []
    ensures Core(plan, k.(sporadic := k.sporadic[1..] + [k.sporadic[0]]))
  {
    var r := k.sporadic[1..] + [k.sporadic[0]];
    forall pid
      ensures pid in r <==> pid in k.sporadic
    {
      assert k.sporadic == [k.sporadic[0]] + k.sporadic[1..];
    }
  }

  /** A running device that has not yielded keeps the processor; anything else settles. */
  ghost predicate Checked(plan: Plan, k: Kernel, o: Outcome) {
    || Settled(plan, k, o)
    || (o == Running(k) && Inv(plan, k) && k.index != INVALID_IDX && LiveAt(k.procs, k.current, Device))
  }

  lemma FlagAt(k: Kernel, i: nat)
    requires TableOk(k) && i < |k.procs| && Live(k.procs[i])
    ensures Flagged(k.procs, k.procs[i].pid) <==> k.procs[i].yielded
  {
  }

  lemma LaunchOk(plan: Plan, v: Variant, k: Kernel)
    requires Core(plan, k) && FlagsOk(k) && BeforeCheck(plan, k) && k.index == INVALID_IDX
    ensures Settled(plan, k, CheckPlan(plan, v, k))
  {
    var k1 := k.(lastChange := k.tick, index := 0);
    CoreIgnoresSlot(plan, k, k1);
    DispatchNamedOk(plan, k1, false);
  }

  lemma DeviceDoneOk(plan: Plan, v: Variant, k: Kernel)
    requires Core(plan, k) && FlagsOk(k) && LivePid(k.procs, k.current) && k.index != INVALID_IDX
    ensures var k1 := k.(lastChange := k.tick - k.debt, debt := 0);
            var named := PidFromName(k.procs, plan.names[k.index]);
            Settled(plan, k, SlotCheck(plan, v, k1, NonNegative(k.debt), named, false))
  {
    var k1 := k.(lastChange := k.tick - k.debt, debt := 0);
    CoreIgnoresSlot(plan, k, k1);
    var named := PidFromName(k.procs, plan.names[k.index]);
    if named != INVALIDPID {
      NamedIsPeriodic(plan, k1, plan.names[k.index]);
      PeriodicOnly(k1, named);
    }
    SlotCheckOk(plan, v, k1, NonNegative(k.debt), named, false);
  }

  lemma DeviceStays(plan: Plan, k: Kernel, i: nat)
    requires Core(plan, k) && FlagsOk(k) && BeforeCheck(plan, k)
    requires i < |k.procs| && k.procs[i].pid == k.current != INVALIDPID
    requires k.procs[i].level == Device && !k.procs[i].yielded
    ensures Inv(plan, k) && LiveAt(k.procs, k.current, Device)
  {
    LevelUnique(k, i);
    FlagAt(k, i);
  }

  lemma DeviceCheckIs(plan: Plan, v: Variant, k: Kernel, i: nat)
    requires WellFormed(plan, k) && k.index != INVALID_IDX
    requires i == SlotOf(k.procs, k.current) < |k.procs| && k.current != INVALIDPID && k.procs[i].level == Device
    ensures CheckPlan(plan, v, k) ==
            if k.procs[i].yielded then
              SlotCheck(plan, v, k.(lastChange := k.tick - k.debt, debt := 0), NonNegative(k.debt),
                        PidFromName(k.procs, plan.names[k.index]), false)
            else Running(k)
  {
  }

  lemma DeviceCheckOk(plan: Plan, v: Variant, k: Kernel, i: nat)
    requires Core(plan, k) && FlagsOk(k) && BeforeCheck(plan, k) && k.index != INVALID_IDX
    requires i == SlotOf(k.procs, k.current) < |k.procs| && k.current != INVALIDPID && k.procs[i].level == Device
    ensures Checked(plan, k, CheckPlan(plan, v, k))
  {
    DeviceCheckIs(plan, v, k, i);
    if k.procs[i].yielded {
      DeviceDoneOk(plan, v, k);
    } else {
      DeviceStays(plan, k, i);
    }
  }

  lemma OrdinaryCheckOk(plan: Plan, v: Variant, k: Kernel, i: nat)
    requires Core(plan, k) && FlagsOk(k) && BeforeCheck(plan, k) && k.index != INVALID_IDX
    requires i == SlotOf(k.procs, k.current) < |k.procs| && k.current != INVALIDPID && k.procs[i].level != Device
    ensures Settled(plan, k, CheckPlan(plan, v, k))
  {
    hide SlotCheck;
    LevelUnique(k, i);
    var age := NonNegative(k.tick - k.lastChange);
    if k.procs[i].level == Sporadic && k.procs[i].yielded {
      RotateOk(plan, k);
      SlotCheckOk(plan, v, k.(sporadic := k.sporadic[1..] + [k.sporadic[0]]), age, k.current, true);
    } else {
      SlotCheckOk(plan, v, k, age, k.current, k.procs[i].yielded);
    }
  }

  /** The check from the point where no device has to be dispatched. */
  lemma CheckPlanOk(plan: Plan, v: Variant, k: Kernel)
    requires Core(plan, k) && FlagsOk(k) && BeforeCheck(plan, k)
    ensures Checked(plan, k, CheckPlan(plan, v, k))
  {
    hide SlotCheck, CheckProcess;
    if k.index == INVALID_IDX {
      LaunchOk(plan, v, k);
    } else if k.current == INVALIDPID {
      SlotCheckOk(plan, v, k, NonNegative(k.tick - k.lastChange), INVALIDPID, false);
    } else {
      SlotOfLive(k.procs, k.current);
      var i := SlotOf(k.procs, k.current);
      if k.procs[i].level == Device {
        DeviceCheckOk(plan, v, k, i);
      } else {
        OrdinaryCheckOk(plan, v, k, i);
      }
    }
  }

  // ----- Releasing devices -----

  /** The due pids are live devices, without repeats, and come from slot i on. */
  lemma {:induction false} DueAre(k: Kernel, i: nat)
    requires TableOk(k) && i <= |k.procs|
    ensures Distinct(DueFrom(k.procs, k.tick, i))
    ensures forall pid | pid in DueFrom(k.procs, k.tick, i) ::
              exists j :: i <= j < |k.procs| && k.procs[j].pid == pid && IsDue(k.procs[j], k.tick)
    ensures forall j | i <= j < |k.procs| && IsDue(k.procs[j], k.tick) :: k.procs[j].pid in DueFrom(k.procs, k.tick, i)
    decreases |k.procs| - i
  {
    if i < |k.procs| {
      DueAre(k, i + 1);
      if IsDue(k.procs[i], k.tick) {
        DistinctConcat([k.procs[i].pid], DueFrom(k.procs, k.tick, i + 1));
      }
    }
  }

  lemma DueIsLiveDevice(k: Kernel, pid: nat)
    requires TableOk(k) && pid in DueFrom(k.procs, k.tick, 0)
    ensures LiveAt(k.procs, pid, Device)
  {
    DueAre(k, 0);
  }

  lemma DuesAreLive(k: Kernel)
    requires TableOk(k)
    ensures forall pid | pid in DueFrom(k.procs, k.tick, 0) :: LiveAt(k.procs, pid, Device)
  {
    DueAre(k, 0);
  }

  lemma DevicesAppend(k: Kernel, due: seq<nat>)
    requires TableOk(k) && DevicesOk(k) && forall pid | pid in due :: LiveAt(k.procs, pid, Device)
    ensures DevicesOk(k.(devices := k.devices + due))
  {
    forall i | 0 <= i < |k.procs| && k.procs[i].pid in due
      ensures k.procs[i].level == Device
    {
      assert LiveAt(k.procs, k.procs[i].pid, Device);
    }
  }

  lemma ReleaseDevicesOk(v: Variant, k: Kernel)
    requires TableOk(k) && DevicesOk(k)
    ensures DevicesOk(AfterRelease(v, k))
  {
    hide DueFrom, LiveAt;
    DuesAreLive(k);
    DevicesAppend(k, Released(v, k));
  }

  lemma ReleaseOk(plan: Plan, v: Variant, k: Kernel)
    requires Core(plan, k)
    ensures Core(plan, AfterRelease(v, k))
  {
    hide DevicesOk;
    ReleaseDevicesOk(v, k);
  }

  // ----- Rings never overflow -----

  ghost function LivePids(procs: seq<Process>): set<nat> {
    set i | 0 <= i < |procs| && Live(procs[i]) :: procs[i].pid
  }

  lemma LivePidsStep(procs: seq<Process>)
    requires procs != []
    ensures var last := procs[|procs| - 1];
            LivePids(procs) == LivePids(procs[..|procs| - 1]) + (if Live(last) then {last.pid} else {})
  {
  }

  lemma {:induction false} FewPids(procs: seq<Process>)
    ensures |LivePids(procs)| <= |procs|
    ensures (exists j :: 0 <= j < |procs| && !Live(procs[j])) ==> |LivePids(procs)| < |procs|
    decreases |procs|
  {
    if |procs| > 0 {
      var rest := procs[..|procs| - 1];
      FewPids(rest);
      LivePidsStep(procs);
      hide LivePids;
      if j :| 0 <= j < |procs| - 1 && !Live(procs[j]) {
        assert !Live(rest[j]);
      }
    }
  }

  lemma {:induction false} DistinctBounded(s: seq<nat>, pids: set<nat>)
    requires Distinct(s) && forall x | x in s :: x in pids
    ensures |s| <= |pids|
    decreases |s|
  {
    if s != [] {
      var rest := s[1..];
      forall x | x in rest
        ensures x in pids - {s[0]}
      {
        var j :| 0 <= j < |rest| && rest[j] == x;
        assert s[j + 1] == x;
      }
      DistinctBounded(rest, pids - {s[0]});
    }
  }

  /** A ring of live pids without repeats fits the table, with room to spare if a slot is free. */
  lemma RingFits(procs: seq<Process>, ring: seq<nat>, level: Level)
    requires Distinct(ring) && forall pid | pid in ring :: LiveAt(procs, pid, level)
    ensures |ring| <= |procs|
    ensures forall j | 0 <= j < |procs| && !Live(procs[j]) :: |ring| < |procs|
  {
    FewPids(procs);
    DistinctBounded(ring, LivePids(procs));
  }

  // ----- The whole check -----

  /** The device ring has a front that is not running and whose process has terminated. */
  ghost predicate FrontDead(k: Kernel) {
    k.devices != [] && k.devices[0] != k.current && !LivePid(k.procs, k.devices[0])
  }

  lemma FrontOk(plan: Plan, k: Kernel)
    requires Core(plan, k) && FlagsOk(k) && BeforeCheck(plan, k) && k.devices != [] && k.devices[0] != k.current
    ensures var o := Switch(k, k.devices[0]);
            && (FrontDead(k) ==> o == Aborted(UnknownPid))
            && (!FrontDead(k) ==>
                  o.Running? && Inv(plan, o.k) && o.k == k.(procs := o.k.procs, current := k.devices[0]))
            && (o.Running? ==> SameButFlags(k.procs, o.k.procs))
  {
    hide SporadicOk, IdleOk, PlanOk, WellFormed, ClockOk;
    assert k.devices[0] in k.devices;
    if !FrontDead(k) {
      DeviceHeadMayRun(plan, k);
      SwitchOk(plan, k, k.devices[0]);
    } else {
      DeadStaysDead(k, k.devices[0]);
    }
  }

  /** Once the due devices are queued, the check aborts exactly on a dead front. */
  lemma CheckQueuedOk(plan: Plan, v: Variant, k: Kernel)
    requires Core(plan, k) && FlagsOk(k) && BeforeCheck(plan, k)
    ensures FrontDead(k) ==> CheckQueued(plan, v, k) == Aborted(UnknownPid)
    ensures !FrontDead(k) ==> CheckQueued(plan, v, k).Running? && Inv(plan, CheckQueued(plan, v, k).k)
    ensures var o := CheckQueued(plan, v, k);
            o.Running? ==> o.k.devices == k.devices && SameButFlags(k.procs, o.k.procs)
  {
    hide CheckPlan, Switch, SameButFlags;
    if |k.devices| > 0 && k.devices[0] != k.current {
      var k2 := k.(debt := k.debt + (k.tick - k.lastChange), lastChange := k.tick);
      CoreIgnoresSlot(plan, k, k2);
      FrontOk(plan, k2);
    } else {
      CheckPlanOk(plan, v, k);
      SameReflexive(k.procs);
    }
  }

  lemma SameReflexive(procs: seq<Process>)
    ensures SameButFlags(procs, procs)
  {
  }

  lemma DeadStaysDead(k: Kernel, pid: nat)
    requires pid != INVALIDPID && pid != k.current && !LivePid(k.procs, pid)
    ensures Switch(k, pid) == Aborted(UnknownPid)
  {
    UnflagSame(k.procs, k.current);
    SameLevels(k.procs, Unflag(k.procs, k.current), pid);
  }

  /** The check aborts exactly if the due devices do not fit the ring, or its front is dead; its
      assertion never fails and no rate is 0. Otherwise it keeps the invariant. */
  lemma CheckOk(plan: Plan, v: Variant, k: Kernel)
    requires Core(plan, k) && FlagsOk(k) && BeforeCheck(plan, k)
    ensures Check(plan, v, k) == Aborted(QueueFull) <==> |AfterRelease(v, k).devices| > MAXPROCESS
    ensures Check(plan, v, k) == Aborted(UnknownPid) <==>
            |AfterRelease(v, k).devices| <= MAXPROCESS && FrontDead(AfterRelease(v, k))
    ensures match Check(plan, v, k)
            case Aborted(r) => r == QueueFull || r == UnknownPid
            case Running(k') =>
              Inv(plan, k') && k'.devices == AfterRelease(v, k).devices && SameButFlags(k.procs, k'.procs)
  {
    hide CheckQueued;
    var k1 := AfterRelease(v, k);
    ReleaseOk(plan, v, k);
    CheckQueuedOk(plan, v, k1);
  }

  lemma DeviceHeadMayRun(plan: Plan, k: Kernel)
    requires Core(plan, k) && k.devices != [] && LivePid(k.procs, k.devices[0])
    ensures MayRun(plan, k, k.devices[0])
  {
    assert k.devices[0] in k.devices;
    var i :| 0 <= i < |k.procs| && k.procs[i].pid == k.devices[0];
    LevelUnique(k, i);
  }

  // ----- Checks that release no device which is still queued or running -----

  /** The device ring holds live devices, without repeats. */
  ghost predicate Orderly(k: Kernel) {
    && Distinct(k.devices)
    && (forall pid | pid in k.devices :: LiveAt(k.procs, pid, Device))
  }

  /** No device that this check releases is still queued, or running. */
  ghost predicate Calm(v: Variant, k: Kernel) {
    forall pid | pid in Released(v, k) :: pid !in k.devices && pid != k.current
  }

  /** A device that has just yielded is no longer queued. */
  ghost predicate Left(k: Kernel) {
    LiveAt(k.procs, k.current, Device) && Flagged(k.procs, k.current) ==> k.current !in k.devices
  }

  lemma ReleaseOrderly(plan: Plan, v: Variant, k: Kernel)
    requires Core(plan, k) && Orderly(k) && Calm(v, k)
    ensures Orderly(AfterRelease(v, k)) && (Left(k) ==> Left(AfterRelease(v, k)))
  {
    DueAre(k, 0);
    forall pid | pid in k.devices + Released(v, k)
      ensures LiveAt(k.procs, pid, Device)
    {
      if pid !in k.devices {
        DueIsLiveDevice(k, pid);
      }
    }
    DistinctConcat(k.devices, Released(v, k));
  }

  lemma OrderlyIgnoresFlags(k: Kernel, k': Kernel)
    requires Orderly(k) && SameButFlags(k.procs, k'.procs) && k'.devices == k.devices
    ensures Orderly(k')
  {
    forall pid | pid in k'.devices
      ensures LiveAt(k'.procs, pid, Device)
    {
      SameLevels(k.procs, k'.procs, pid);
    }
  }

  lemma HeadKeepsRunning(plan: Plan, v: Variant, k: Kernel)
    requires Core(plan, k) && k.index != INVALID_IDX && k.devices != [] && k.devices[0] == k.current
    requires LiveAt(k.procs, k.current, Device) && !Flagged(k.procs, k.current)
    ensures CheckQueued(plan, v, k) == CheckPlan(plan, v, k) == Running(k)
  {
    var i :| 0 <= i < |k.procs| && k.procs[i].pid == k.current && k.procs[i].level == Device;
    SlotOfIs(k, i);
    FlagAt(k, i);
    DeviceCheckIs(plan, v, k, i);
  }

  /** Such a check never aborts, keeps the ring in order, and in a launched plan leaves the processor
      with the front of the device ring if that ring is not empty. */
  lemma CalmCheckOk(plan: Plan, v: Variant, k: Kernel)
    requires Core(plan, k) && FlagsOk(k) && BeforeCheck(plan, k) && Orderly(k) && Calm(v, k) && Left(k)
    ensures Check(plan, v, k).Running? && Inv(plan, Check(plan, v, k).k) && Orderly(Check(plan, v, k).k)
    ensures k.index != INVALID_IDX ==> HeadRuns(Check(plan, v, k).k)
  {
    hide CheckQueued;
    var k1 := AfterRelease(v, k);
    ReleaseOk(plan, v, k);
    ReleaseOrderly(plan, v, k);
    RingFits(k.procs, k1.devices, Device);
    NotDead(k1);
    CheckOk(plan, v, k);
    OrderlyIgnoresFlags(k1, Check(plan, v, k).k);
    if k.index != INVALID_IDX && k1.devices != [] {
      FrontRuns(plan, v, k1);
    }
  }

  lemma NotDead(k: Kernel)
    requires Orderly(k)
    ensures !FrontDead(k)
  {
    if k.devices != [] {
      assert k.devices[0] in k.devices;
    }
  }

  lemma FrontRuns(plan: Plan, v: Variant, k: Kernel)
    requires Core(plan, k) && Orderly(k) && Left(k) && k.index != INVALID_IDX && k.devices != []
    requires CheckQueued(plan, v, k).Running?
    ensures CheckQueued(plan, v, k).k.current == k.devices[0]
  {
    hide CheckPlan;
    assert k.devices[0] in k.devices;
    if k.devices[0] == k.current {
      HeadKeepsRunning(plan, v, k);
    }
  }

  ghost predicate HeadRuns(k: Kernel) {
    k.devices != [] ==> k.devices[0] == k.current
  }

  // ----- Steps -----

  /** What the kernel assumes of the events. Idle makes no calls, a device has a rate, a name is one of the
      registry, and only periodic processes use names of the plan. */
  ghost predicate Allowed(plan: Plan, k: Kernel, e: Event) {
    match e
    case Timer => true
    case Yields => k.current != INVALIDPID && k.current != plan.idle
    case Terminates => k.current != INVALIDPID && k.current != plan.idle
    case Creates(level, n) =>
      && k.current != plan.idle && level != IdlePriority
      && (level == Device ==> n >= 1)
      && (UsesName(level) ==> n < NAMES)
      && (level != Periodic ==> n !in plan.names)
  }

  /** Whether e triggers a check, and the state in which that check starts. */
  ghost predicate Checks(k: Kernel, e: Event) {
    e == Timer || (e == Yields && !Flagged(k.procs, k.current) && MarkYielded(k).Running?)
  }

  ghost function CheckStart(k: Kernel, e: Event): Kernel
    requires Checks(k, e)
  {
    if e == Timer then k.(tick := k.tick + 1) else MarkYielded(k).k
  }

  lemma ReadyForCheck(plan: Plan, k: Kernel, k1: Kernel)
    requires Inv(plan, k) && k1 == k.(tick := k1.tick) && k.tick <= k1.tick
    ensures Core(plan, k1) && FlagsOk(k1) && BeforeCheck(plan, k1) && (Orderly(k) ==> Orderly(k1)) && Left(k1)
  {
    CoreIgnoresSlot(plan, k, k1);
  }

  // OS_Yield

  /** The state in which the check after a yield starts. */
  lemma MarkYieldedOk(plan: Plan, k: Kernel)
    requires Inv(plan, k) && k.current != INVALIDPID
    ensures MarkYielded(k).Running?
    ensures var k1 := MarkYielded(k).k;
            && Core(plan, k1) && FlagsOk(k1) && BeforeCheck(plan, k1) && SameButFlags(k.procs, k1.procs)
            && k1 == k.(procs := k1.procs, devices := k1.devices)
            && k1.devices == (if LiveAt(k.procs, k.current, Device) then k.devices[1..] else k.devices)
            && Flagged(k1.procs, k1.current)
  {
    hide SporadicOk, IdleOk, PlanOk;
    SlotOfLive(k.procs, k.current);
    var i := SlotOf(k.procs, k.current);
    var flagged := k.(procs := k.procs[i := k.procs[i].(yielded := true)]);
    CoreIgnoresFlags(plan, k, flagged.procs, k.current);
    SameLevels(k.procs, flagged.procs, k.current);
    LevelUnique(k, i);
    FlagAt(flagged, i);
    if k.procs[i].level == Device {
      PopDeviceOk(plan, flagged);
    }
  }

  lemma PopDeviceOk(plan: Plan, k: Kernel)
    requires Core(plan, k) && k.devices != []
    ensures Core(plan, k.(devices := k.devices[1..]))
  {
    InTail(k.devices);
  }

  lemma MarkYieldedOrderly(plan: Plan, k: Kernel)
    requires Inv(plan, k) && k.current != INVALIDPID && Orderly(k)
    ensures MarkYielded(k).Running? && Orderly(MarkYielded(k).k) && Left(MarkYielded(k).k)
  {
    hide Core;
    MarkYieldedOk(plan, k);
    var k1 := MarkYielded(k).k;
    SameLevels(k.procs, k1.procs, k.current);
    if LiveAt(k.procs, k.current, Device) {
      PopRing(k.devices, k.current);
    }
    forall pid | pid in k1.devices
      ensures LiveAt(k1.procs, pid, Device)
    {
      assert pid in k.devices;
      SameLevels(k.procs, k1.procs, pid);
    }
  }

  // OS_Create

  lemma FreeSlotGone(k: Kernel, pid: nat, level: Level, n: nat)
    requires TableOk(k) && SlotOf(k.procs, INVALIDPID) < |k.procs| && pid == k.nextPid
    ensures var i := SlotOf(k.procs, INVALIDPID);
            var procs := k.procs[i := Process(pid, level, n, false)];
            && TableOk(k.(procs := procs, nextPid := pid + 1))
            && (forall p, l :: LiveAt(procs, p, l) <==> LiveAt(k.procs, p, l) || (p == pid && l == level))
            && (forall p :: LivePid(procs, p) <==> LivePid(k.procs, p) || p == pid)
            && !LivePid(k.procs, pid)
  {
    var i := SlotOf(k.procs, INVALIDPID);
    var procs := k.procs[i := Process(pid, level, n, false)];
    forall p, l
      ensures LiveAt(procs, p, l) <==> LiveAt(k.procs, p, l) || (p == pid && l == level)
    {
      if LiveAt(k.procs, p, l) {
        var j :| 0 <= j < |k.procs| && k.procs[j].pid == p && k.procs[j].level == l && p != INVALIDPID;
        assert procs[j] == k.procs[j];
      }
      if p == pid && l == level {
        assert procs[i].pid == pid;
      }
    }
    forall p
      ensures LivePid(procs, p) <==> LivePid(k.procs, p) || p == pid
    {
      if LivePid(k.procs, p) {
        var j :| 0 <= j < |k.procs| && k.procs[j].pid == p && p != INVALIDPID;
        assert procs[j] == k.procs[j];
      }
      if p == pid {
        assert procs[i].pid == pid;
      }
    }
  }

  /** The table gains one process; the rings change as OS_Create changes them. */
  ghost predicate Gains(k: Kernel, k': Kernel, level: Level, n: nat) {
    && TableOk(k) && TableOk(k') && !LivePid(k.procs, k.nextPid)
    && (forall p, l :: LiveAt(k'.procs, p, l) <==> LiveAt(k.procs, p, l) || (p == k.nextPid && l == level))
    && (forall p :: LivePid(k'.procs, p) <==> LivePid(k.procs, p) || p == k.nextPid)
    && |k'.procs| == |k.procs|
    && (forall i | 0 <= i < |k.procs| ::
          k'.procs[i] == k.procs[i] || k'.procs[i] == Process(k.nextPid, level, n, false))
    && k'.sporadic == (if level == Sporadic then k.sporadic + [k.nextPid] else k.sporadic)
    && k' == k.(procs := k'.procs, nextPid := k'.nextPid, names := k'.names, sporadic := k'.sporadic)
  }

  lemma CreateGains(k: Kernel, level: Level, n: nat)
    requires TableOk(k) && Create(k, level, n).0 != k && |k.sporadic| < MAXPROCESS
    ensures Gains(k, Create(k, level, n).0, level, n) && Create(k, level, n).1 == k.nextPid
  {
    FreeSlotGone(k, k.nextPid, level, n);
    var k' := Create(k, level, n).0;
    assert TableOk(k');
  }

  lemma GainRings(plan: Plan, k: Kernel, k': Kernel, level: Level, n: nat)
    requires Core(plan, k) && Gains(k, k', level, n)
    ensures SporadicOk(k') && DevicesOk(k')
  {
    NewInNoRing(k.procs, k.sporadic, k.nextPid, Sporadic);
    DistinctConcat(k.sporadic, [k.nextPid]);
  }

  lemma NewInNoRing(procs: seq<Process>, ring: seq<nat>, pid: nat, level: Level)
    requires !LivePid(procs, pid) && forall p | p in ring :: LiveAt(procs, p, level)
    ensures pid !in ring
  {
  }

  lemma GainCore(plan: Plan, k: Kernel, k': Kernel, level: Level, n: nat)
    requires Core(plan, k) && Gains(k, k', level, n)
    requires level != IdlePriority && (level == Device ==> n >= 1) && (UsesName(level) ==> n < NAMES)
    requires level != Periodic ==> n !in plan.names
    ensures Core(plan, k')
  {
    GainRings(plan, k, k', level, n);
  }

  lemma GainRunning(plan: Plan, k: Kernel, k': Kernel, level: Level, n: nat)
    requires Inv(plan, k) && Gains(k, k', level, n) && k.current != plan.idle
    ensures FlagsOk(k') && CurrentOk(plan, k')
  {
    if k.current != INVALIDPID {
      assert LivePid(k.procs, k.current);
      if Flagged(k'.procs, k.current) {
        var i :| 0 <= i < |k'.procs| && k'.procs[i].pid == k.current && k'.procs[i].yielded;
        assert k'.procs[i] == k.procs[i];
      }
    }
  }

  /** Creation keeps the invariant, fails only for want of a slot or a name, and never in its branch
      for a full sporadic ring. */
  lemma CreateOk(plan: Plan, k: Kernel, level: Level, n: nat)
    requires Inv(plan, k) && Allowed(plan, k, Creates(level, n))
    ensures Inv(plan, Create(k, level, n).0) && (Orderly(k) ==> Orderly(Create(k, level, n).0))
    ensures Create(k, level, n).1 == INVALIDPID <==>
            (forall i | 0 <= i < |k.procs| :: Live(k.procs[i])) || (UsesName(level) && n in k.names)
    ensures Create(k, level, n).1 == INVALIDPID ==> Create(k, level, n).0 == k
  {
    var i := SlotOf(k.procs, INVALIDPID);
    var k' := Create(k, level, n).0;
    if i < |k.procs| && !(UsesName(level) && n in k.names) {
      RingFits(k.procs, k.sporadic, Sporadic);
      CreateGains(k, level, n);
      GainCore(plan, k, k', level, n);
      GainRunning(plan, k, k', level, n);
    }
  }

  // OS_Terminate

  /** The table loses the running process, which leaves its ring by the front. */
  ghost predicate Loses(k: Kernel, k': Kernel) {
    && TableOk(k')
    && (forall p, l :: LiveAt(k'.procs, p, l) <==> LiveAt(k.procs, p, l) && p != k.current)
    && |k'.procs| == |k.procs|
    && (forall i | 0 <= i < |k.procs| :: k'.procs[i] == k.procs[i] || !Live(k'.procs[i]))
    && (forall i | 0 <= i < |k.procs| :: k'.procs[i].pid != k.current)
    && k'.current == INVALIDPID
    && k' == k.(procs := k'.procs, current := INVALIDPID, names := k'.names,
                sporadic := k'.sporadic, devices := k'.devices)
  }

  lemma SlotFreed(k: Kernel, i: nat)
    requires TableOk(k) && i < |k.procs| && k.procs[i].pid == k.current != INVALIDPID
    ensures var procs := k.procs[i := k.procs[i].(pid := INVALIDPID)];
            && TableOk(k.(procs := procs))
            && (forall p, l :: LiveAt(procs, p, l) <==> LiveAt(k.procs, p, l) && p != k.current)
            && (forall j | 0 <= j < |procs| :: procs[j].pid != k.current)
  {
    var procs := k.procs[i := k.procs[i].(pid := INVALIDPID)];
    forall p, l
      ensures LiveAt(procs, p, l) <==> LiveAt(k.procs, p, l) && p != k.current
    {
      if LiveAt(k.procs, p, l) && p != k.current {
        var j :| 0 <= j < |k.procs| && k.procs[j].pid == p && k.procs[j].level == l && p != INVALIDPID;
        assert procs[j] == k.procs[j];
      }
      if LiveAt(procs, p, l) {
        var j :| 0 <= j < |procs| && procs[j].pid == p && procs[j].level == l && p != INVALIDPID;
        assert k.procs[j] == procs[j];
      }
    }
  }

  lemma LossCore(plan: Plan, k: Kernel, k': Kernel)
    requires Core(plan, k) && FlagsOk(k) && Loses(k, k') && k.current != plan.idle
    requires SporadicOk(k') && DevicesOk(k')
    ensures Inv(plan, k')
  {
    forall i | 0 <= i < |k'.procs| && Live(k'.procs[i])
      ensures !k'.procs[i].yielded
    {
      assert k'.procs[i] == k.procs[i];
    }
  }

  /** Popping the front, which is the process that leaves, keeps a ring exact. */
  lemma PopRing(ring: seq<nat>, pid: nat)
    requires Distinct(ring) && ring != [] && ring[0] == pid
    ensures Distinct(ring[1..])
    ensures forall p :: p in ring[1..] <==> p in ring && p != pid
  {
    forall p
      ensures p in ring[1..] <==> p in ring && p != pid
    {
      assert ring == [ring[0]] + ring[1..];
    }
  }

  lemma NotInRing(ring: seq<nat>, procs: seq<Process>, pid: nat, level: Level)
    requires forall p | p in ring :: LiveAt(procs, p, level)
    requires !LiveAt(procs, pid, level)
    ensures pid !in ring
  {
  }

  lemma TerminateLoses(v: Variant, k: Kernel, i: nat)
    requires TableOk(k) && i == SlotOf(k.procs, k.current) < |k.procs| && k.current != INVALIDPID
    requires Terminate(v, k).Running?
    ensures Loses(k, Terminate(v, k).k)
    ensures Terminate(v, k).k.sporadic == (if k.procs[i].level == Sporadic then k.sporadic[1..] else k.sporadic)
    ensures Terminate(v, k).k.devices == (if k.procs[i].level == Device then k.devices[1..] else k.devices)
  {
    SlotFreed(k, i);
  }

  lemma TerminateRuns(plan: Plan, v: Variant, k: Kernel, i: nat)
    requires Inv(plan, k) && i == SlotOf(k.procs, k.current) < |k.procs| && k.current != INVALIDPID
    requires k.current != plan.idle
    ensures Terminate(v, k).Running?
    ensures k.procs[i].level == Sporadic ==> k.sporadic != [] && k.sporadic[0] == k.current
    ensures k.procs[i].level == Device ==> k.devices != [] && k.devices[0] == k.current
  {
    LevelUnique(k, i);
  }

  lemma LossRings(plan: Plan, k: Kernel, k': Kernel, i: nat)
    requires Core(plan, k) && Loses(k, k') && i < |k.procs| && k.procs[i].pid == k.current != INVALIDPID
    requires k.procs[i].level == Sporadic ==> k.sporadic != [] && k.sporadic[0] == k.current
    requires k.procs[i].level == Device ==> k.devices != [] && k.devices[0] == k.current
    requires k'.sporadic == (if k.procs[i].level == Sporadic then k.sporadic[1..] else k.sporadic)
    requires k'.devices == (if k.procs[i].level == Device then k.devices[1..] else k.devices)
    ensures SporadicOk(k') && DevicesOk(k')
  {
    LevelUnique(k, i);
    if k.procs[i].level == Sporadic {
      PopRing(k.sporadic, k.current);
    } else {
      NotInRing(k.sporadic, k.procs, k.current, Sporadic);
    }
    InTail(k.devices);
  }

  lemma LossOrderly(plan: Plan, k: Kernel, k': Kernel, i: nat)
    requires Core(plan, k) && Orderly(k) && Loses(k, k') && i < |k.procs| && k.procs[i].pid == k.current != INVALIDPID
    requires k.procs[i].level == Device ==> k.devices != [] && k.devices[0] == k.current
    requires k'.devices == (if k.procs[i].level == Device then k.devices[1..] else k.devices)
    ensures Orderly(k')
  {
    LevelUnique(k, i);
    if k.procs[i].level == Device {
      PopRing(k.devices, k.current);
    } else {
      NotInRing(k.devices, k.procs, k.current, Device);
    }
  }

  lemma TerminateOk(plan: Plan, v: Variant, k: Kernel)
    requires Inv(plan, k) && k.current != INVALIDPID && k.current != plan.idle
    ensures Terminate(v, k).Running? && Inv(plan, Terminate(v, k).k) && (Orderly(k) ==> Orderly(Terminate(v, k).k))
  {
    SlotOfLive(k.procs, k.current);
    var i := SlotOf(k.procs, k.current);
    TerminateRuns(plan, v, k, i);
    TerminateLoses(v, k, i);
    LossRings(plan, k, Terminate(v, k).k, i);
    LossCore(plan, k, Terminate(v, k).k);
    if Orderly(k) {
      LossOrderly(plan, k, Terminate(v, k).k, i);
    }
  }

  // ----- All reachable states -----

  lemma BootOk(plan: Plan)
    requires WellFormedPlan(plan)
    ensures Inv(plan, Boot(plan)) <==> 0 !in plan.names
    ensures Orderly(Boot(plan))
  {
    assert Boot(plan).procs[0].pid == plan.idle;
  }

  /** The check of a step starts in a state that keeps everything but who may run. */
  lemma CheckStartOk(plan: Plan, k: Kernel, e: Event)
    requires Inv(plan, k) && Allowed(plan, k, e) && Checks(k, e)
    ensures var k1 := CheckStart(k, e);
            Core(plan, k1) && FlagsOk(k1) && BeforeCheck(plan, k1) && (Orderly(k) ==> Orderly(k1) && Left(k1))
  {
    hide Core;
    if e == Timer {
      ReadyForCheck(plan, k, CheckStart(k, e));
    } else {
      MarkYieldedOk(plan, k);
      if Orderly(k) {
        MarkYieldedOrderly(plan, k);
      }
    }
  }

  /** A yield of a process whose flag is set does nothing; any other yield, and the timer, run a check. */
  lemma YieldIsCheck(plan: Plan, v: Variant, k: Kernel)
    requires Inv(plan, k) && k.current != INVALIDPID
    ensures Checks(k, Yields) <==> !Flagged(k.procs, k.current)
    ensures Checks(k, Yields) ==> WellFormed(plan, CheckStart(k, Yields))
    ensures Yield(plan, v, k) == if Checks(k, Yields) then Check(plan, v, CheckStart(k, Yields)) else Running(k)
  {
    hide Check;
    MarkYieldedOk(plan, k);
    SlotOfLive(k.procs, k.current);
    FlagAt(k, SlotOf(k.procs, k.current));
  }

  /** Every step keeps the invariant, in every variant, and whatever the devices do. It aborts exactly if
      its check has to enqueue more devices than fit the ring, or meets a front whose process is dead. */
  lemma StepOk(plan: Plan, v: Variant, k: Kernel, e: Event)
    requires Inv(plan, k) && Allowed(plan, k, e)
    ensures Step(plan, v, k, e) == Aborted(QueueFull) <==>
            Checks(k, e) && |AfterRelease(v, CheckStart(k, e)).devices| > MAXPROCESS
    ensures Step(plan, v, k, e) == Aborted(UnknownPid) <==>
            && Checks(k, e) && |AfterRelease(v, CheckStart(k, e)).devices| <= MAXPROCESS
            && FrontDead(AfterRelease(v, CheckStart(k, e)))
    ensures match Step(plan, v, k, e)
            case Aborted(r) => r == QueueFull || r == UnknownPid
            case Running(k') => Inv(plan, k')
  {
    hide Check, Yield, Terminate, Create, Inv, MarkYielded;
    if Checks(k, e) {
      StepIsItsCheck(plan, v, k, e);
      CheckStartOk(plan, k, e);
      CheckOk(plan, v, CheckStart(k, e));
    } else {
      StepWithoutCheck(plan, v, k, e);
    }
  }

  lemma StepIsItsCheck(plan: Plan, v: Variant, k: Kernel, e: Event)
    requires Inv(plan, k) && Allowed(plan, k, e) && Checks(k, e)
    ensures WellFormed(plan, CheckStart(k, e)) && Step(plan, v, k, e) == Check(plan, v, CheckStart(k, e))
  {
    hide Check;
    if e == Yields {
      YieldIsCheck(plan, v, k);
    }
  }

  lemma StepWithoutCheck(plan: Plan, v: Variant, k: Kernel, e: Event)
    requires Inv(plan, k) && Allowed(plan, k, e) && !Checks(k, e)
    ensures Step(plan, v, k, e).Running? && Inv(plan, Step(plan, v, k, e).k)
    ensures Orderly(k) ==> Orderly(Step(plan, v, k, e).k)
  {
    hide Check, Yield, Terminate, Create, Inv, Orderly;
    match e
    case Timer =>
    case Yields => YieldIsCheck(plan, v, k);
    case Terminates => TerminateOk(plan, v, k);
    case Creates(level, n) => CreateOk(plan, k, level, n);
  }

  /** No device falls due in this step while it is still queued or running. */
  ghost predicate InTime(v: Variant, k: Kernel, e: Event) {
    Checks(k, e) ==> Calm(v, CheckStart(k, e))
  }

  /** If no device falls due while it is still queued or running, no step aborts. The device ring then
      holds live devices only, each once, and in a launched plan every check leaves its front running. */
  lemma CalmStepOk(plan: Plan, v: Variant, k: Kernel, e: Event)
    requires Inv(plan, k) && Orderly(k) && Allowed(plan, k, e) && InTime(v, k, e)
    ensures Step(plan, v, k, e).Running? && Inv(plan, Step(plan, v, k, e).k) && Orderly(Step(plan, v, k, e).k)
    ensures Checks(k, e) && k.index != INVALID_IDX ==> HeadRuns(Step(plan, v, k, e).k)
  {
    hide Check, Yield, Terminate, Create, Inv, Orderly, Calm, MarkYielded;
    if Checks(k, e) {
      StepIsItsCheck(plan, v, k, e);
      CheckStartOk(plan, k, e);
      StartIndex(plan, k, e);
      CalmCheckOk(plan, v, CheckStart(k, e));
    } else {
      StepWithoutCheck(plan, v, k, e);
    }
  }

  lemma StartIndex(plan: Plan, k: Kernel, e: Event)
    requires Inv(plan, k) && Allowed(plan, k, e) && Checks(k, e)
    ensures CheckStart(k, e).index == k.index
  {
    if e == Yields {
      MarkYieldedOk(plan, k);
    }
  }

  /** The events es, from k on, are all allowed, and in time if that is asked for. */
  ghost predicate AllowedRun(plan: Plan, v: Variant, k: Kernel, es: seq<Event>, inTime: bool)
    requires WellFormed(plan, k)
    decreases |es|
  {
    if es == [] then true
    else
      Allowed(plan, k, es[0]) && (inTime ==> InTime(v, k, es[0])) &&
      match Step(plan, v, k, es[0])
      case Aborted(_) => true
      case Running(k') =>
        StepWellFormed(plan, v, k, es[0]);
        AllowedRun(plan, v, k', es[1..], inTime)
  }

  /** No run of allowed events ever fails an assertion or divides by zero, and the invariant holds as long
      as it goes on. */
  lemma {:induction false} RunFailsNoAssertion(plan: Plan, v: Variant, k: Kernel, es: seq<Event>)
    requires Inv(plan, k) && AllowedRun(plan, v, k, es, false)
    ensures match Exec(plan, v, k, es)
            case Aborted(r) => r == QueueFull || r == UnknownPid
            case Running(k') => Inv(plan, k')
    decreases |es|
  {
    hide Step, Inv, Allowed;
    WellFormedFromInv(plan, k);
    if es != [] {
      StepOk(plan, v, k, es[0]);
      if Step(plan, v, k, es[0]).Running? {
        RunFailsNoAssertion(plan, v, Step(plan, v, k, es[0]).k, es[1..]);
      }
    }
  }

  /** A run in which devices are never overtaken by their own rate never aborts. */
  lemma {:induction false} CalmRunNeverAborts(plan: Plan, v: Variant, k: Kernel, es: seq<Event>)
    requires Inv(plan, k) && Orderly(k) && AllowedRun(plan, v, k, es, true)
    ensures Exec(plan, v, k, es).Running? && Inv(plan, Exec(plan, v, k, es).k) && Orderly(Exec(plan, v, k, es).k)
    decreases |es|
  {
    hide Step, Inv, Allowed, InTime, Orderly;
    WellFormedFromInv(plan, k);
    if es != [] {
      CalmStepOk(plan, v, k, es[0]);
      CalmRunNeverAborts(plan, v, Step(plan, v, k, es[0]).k, es[1..]);
    }
  }

  lemma WellFormedFromInv(plan: Plan, k: Kernel)
    requires Inv(plan, k)
    ensures WellFormed(plan, k)
  {
  }

  /** The allowed event e leads from k to k'. */
  ghost predicate Follows(plan: Plan, v: Variant, k: Kernel, e: Event, k': Kernel) {
    WellFormed(plan, k) && Allowed(plan, k, e) && Step(plan, v, k, e) == Running(k')
  }

  /** ks are the states of a run under the events es. */
  ghost predicate Trace(plan: Plan, v: Variant, ks: seq<Kernel>, es: seq<Event>) {
    && |ks| == |es| + 1
    && forall i | 0 <= i < |es| :: Follows(plan, v, ks[i], es[i], ks[i + 1])
  }

  /** In a state of the invariant, and so in every state of every run, what OS_Terminate takes for granted holds. */
  lemma InvMayTerminate(plan: Plan, k: Kernel)
    requires Inv(plan, k)
    ensures MayTerminate(k)
  {
    if k.current != INVALIDPID {
      forall i | 0 <= i < |k.procs| && k.procs[i].pid == k.current
        ensures k.procs[i].level == Device ==> k.devices != []
        ensures k.procs[i].level == Sporadic ==> k.sporadic != []
      {
        LevelUnique(k, i);
      }
    }
  }

  lemma {:induction false} TraceKeepsInv(plan: Plan, v: Variant, ks: seq<Kernel>, es: seq<Event>, i: nat)
    requires Trace(plan, v, ks, es) && Inv(plan, ks[0]) && i < |ks|
    ensures Inv(plan, ks[i])
  {
    hide Step, Allowed, Inv;
    if i > 0 {
      TraceKeepsInv(plan, v, ks, es, i - 1);
      assert Follows(plan, v, ks[i - 1], es[i - 1], ks[i - 1 + 1]);
      StepOk(plan, v, ks[i - 1], es[i - 1]);
    }
  }
}
