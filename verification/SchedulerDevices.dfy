/** Devices: how often they are released, and what their running time does to the slot they interrupt. */
module SchedulerDevices {
  import opened Scheduler
  import opened SchedulerInvariant
  import opened SchedulerSlots
  import opened SchedulerTimetable
  import opened SchedulerClock
  import opened Sequences

  // ----- Releases -----

  /** pid is a live device of rate n. */
  ghost predicate HasDevice(k: Kernel, pid: nat, n: nat) {
    pid != INVALIDPID &&
    exists i :: 0 <= i < |k.procs| && k.procs[i].pid == pid && k.procs[i].level == Device && k.procs[i].n == n
  }

  function Count(s: seq<nat>, pid: nat): nat {
    multiset(s)[pid]
  }

  /** The pids that a step enqueues on the device ring. */
  function StepReleases(v: Variant, k: Kernel, e: Event): seq<nat> {
    match e
    case Timer => Released(v, k.(tick := k.tick + 1))
    case Yields =>
      var i := SlotOf(k.procs, k.current);
      if i < |k.procs| && k.procs[i].yielded then []
      else if MarkYielded(k).Running? then Released(v, MarkYielded(k).k) else []
    case _ => []
  }

  /** These are exactly the pids that the step appends to the ring; a running device that yields or
      terminates leaves it by the front. */
  lemma RingGrows(plan: Plan, v: Variant, k: Kernel, e: Event, k': Kernel)
    requires Inv(plan, k) && Follows(plan, v, k, e, k')
    ensures (e == Yields || e == Terminates) && DeviceRunning(k) ==> k.devices != [] && k.devices[0] == k.current
    ensures k'.devices ==
            (if (e == Yields || e == Terminates) && DeviceRunning(k) then k.devices[1..] else k.devices)
            + StepReleases(v, k, e)
  {
    hide Check, DueFrom, Create, SporadicOk, IdleOk, PlanOk;
    match e
    case Timer =>
      CheckStartOk(plan, k, e);
      CheckOk(plan, v, CheckStart(k, e));
    case Yields => YieldGrows(plan, v, k);
    case Terminates =>
      SlotOfLive(k.procs, k.current);
      LevelUnique(k, SlotOf(k.procs, k.current));
      assert k.devices + [] == k.devices && (k.devices != [] ==> k.devices[1..] + [] == k.devices[1..]);
    case Creates(level, n) =>
      CreateRings(k, level, n);
      assert k.devices + [] == k.devices;
  }

  lemma CreateRings(k: Kernel, level: Level, n: nat)
    ensures Create(k, level, n).0.devices == k.devices
  {
  }

  lemma YieldGrows(plan: Plan, v: Variant, k: Kernel)
    requires Inv(plan, k) && k.current != INVALIDPID && Yield(plan, v, k).Running?
    ensures DeviceRunning(k) ==> k.devices != []
    ensures Yield(plan, v, k).k.devices ==
            (if DeviceRunning(k) then k.devices[1..] else k.devices) + StepReleases(v, k, Yields)
  {
    hide Check, Yield, DueFrom, MarkYielded, SporadicOk, IdleOk, PlanOk;
    YieldIsCheck(plan, v, k);
    MarkYieldedOk(plan, k);
    SlotOfLive(k.procs, k.current);
    FlagAt(k, SlotOf(k.procs, k.current));
    if Checks(k, Yields) {
      CheckOk(plan, v, CheckStart(k, Yields));
    } else {
      assert k.devices + [] == k.devices;
    }
  }

  /** x comes before y in s. */
  ghost predicate Before(s: seq<nat>, x: nat, y: nat) {
    exists a, b :: 0 <= a < b < |s| && s[a] == x && s[b] == y
  }

  /** p is a live device whose rate divides the tick. */
  predicate FallsDue(p: Process, tick: int) {
    p.pid != 0 && p.level == Device && p.n != 0 && tick % p.n == 0
  }

  /** Devices that fall due in the same tick are queued in the order of their slots. */
  lemma {:induction false} QueuedInSlotOrder(procs: seq<Process>, tick: int, i: nat, a: nat, b: nat)
    requires i <= a < b < |procs| && FallsDue(procs[a], tick) && FallsDue(procs[b], tick)
    ensures Before(DueFrom(procs, tick, i), procs[a].pid, procs[b].pid)
    decreases a - i
  {
    var rest := DueFrom(procs, tick, i + 1);
    if i == a {
      DueFollows(procs, tick, i + 1, b);
      var y :| 0 <= y < |rest| && rest[y] == procs[b].pid;
      assert DueFrom(procs, tick, i) == [procs[a].pid] + rest;
      assert DueFrom(procs, tick, i)[0] == procs[a].pid && DueFrom(procs, tick, i)[y + 1] == procs[b].pid;
    } else {
      QueuedInSlotOrder(procs, tick, i + 1, a, b);
      var x, y :| 0 <= x < y < |rest| && rest[x] == procs[a].pid && rest[y] == procs[b].pid;
      if IsDue(procs[i], tick) {
        assert DueFrom(procs, tick, i)[x + 1] == procs[a].pid && DueFrom(procs, tick, i)[y + 1] == procs[b].pid;
      } else {
        assert DueFrom(procs, tick, i) == rest;
      }
    }
  }

  lemma {:induction false} DueFollows(procs: seq<Process>, tick: int, i: nat, b: nat)
    requires i <= b < |procs| && FallsDue(procs[b], tick)
    ensures procs[b].pid in DueFrom(procs, tick, i)
    decreases b - i
  {
    if i < b {
      DueFollows(procs, tick, i + 1, b);
    }
  }

  /** A check divides by zero exactly if it has to release devices, as written because the slot has an age,
      and some live device was created with rate 0. */
  lemma ZeroRateAbortsIff(plan: Plan, v: Variant, k: Kernel)
    requires WellFormed(plan, k)
    ensures Check(plan, v, k) == Aborted(DivideByZero) <==>
            && (if v.oncePerTick then k.tick != k.lastReleased else k.tick != k.lastChange)
            && exists i :: 0 <= i < |k.procs| && k.procs[i].pid != 0 && k.procs[i].level == Device && k.procs[i].n == 0
  {
    hide CheckPlan;
    CheckPlanReasons(plan, v, AfterRelease(v, k));
  }

  lemma CheckPlanReasons(plan: Plan, v: Variant, k: Kernel)
    requires WellFormed(plan, k)
    ensures CheckPlan(plan, v, k) != Aborted(DivideByZero)
  {
    hide SlotOf, PidFromName, Unflag;
  }

  /** How often pid is enqueued in the first i steps, by the timer or by the checks of yields. */
  function Enqueued(v: Variant, ks: seq<Kernel>, es: seq<Event>, pid: nat, i: nat, byTimer: bool): nat
    requires |ks| == |es| + 1 && i <= |es|
  {
    if i == 0 then 0
    else
      Enqueued(v, ks, es, pid, i - 1, byTimer) +
      if (es[i - 1] == Timer) == byTimer then Count(StepReleases(v, ks[i - 1], es[i - 1]), pid) else 0
  }

  lemma {:induction false} CountDistinct(s: seq<nat>, pid: nat)
    requires Distinct(s)
    ensures Count(s, pid) == if pid in s then 1 else 0
    decreases |s|
  {
    if s != [] {
      assert s == [s[0]] + s[1..];
      CountDistinct(s[1..], pid);
    }
  }

  /** A device of rate n occurs once among the due pids if the tick is a multiple of n, and else not at all. */
  lemma DueCount(k: Kernel, pid: nat, n: nat)
    requires TableOk(k) && HasDevice(k, pid, n) && n >= 1
    ensures Count(DueFrom(k.procs, k.tick, 0), pid) == if k.tick % n == 0 then 1 else 0
  {
    DueAre(k, 0);
    CountDistinct(DueFrom(k.procs, k.tick, 0), pid);
  }

  /** The timer check of every tick releases devices, in every variant. */
  lemma TimerReleases(v: Variant, k: Kernel, pid: nat, n: nat)
    requires TableOk(k) && ClockOk(k) && k.lastReleased <= k.tick && HasDevice(k, pid, n) && n >= 1
    ensures Count(StepReleases(v, k, Timer), pid) == if (k.tick + 1) % n == 0 then 1 else 0
  {
    var k1 := k.(tick := k.tick + 1);
    assert TableOk(k1) && HasDevice(k1, pid, n);
    DueCount(k1, pid, n);
  }

  lemma QuotientStep(t: nat, n: nat)
    requires n >= 1
    ensures (t + 1) / n == t / n + if (t + 1) % n == 0 then 1 else 0
  {
    var q, r := t / n, t % n;
    assert t == n * q + r;
    if r + 1 < n {
      QuotientIs(t + 1, n, q, r + 1);
    } else {
      assert n * (q + 1) == n * q + n;
      QuotientIs(t + 1, n, q + 1, 0);
    }
  }

  lemma QuotientIs(x: nat, n: nat, q: nat, r: nat)
    requires r < n && x == n * q + r
    ensures x / n == q && x % n == r
  {
    assert x == n * (x / n) + x % n;
    assert n * (x / n - q) == r - x % n;
    MultipleAtLeast(x / n - q, n);
  }

  /** In every variant the timer checks enqueue a device of rate n, created at tick c and still alive at
      tick t, exactly floor(t/n) - floor(c/n) times. */
  lemma {:induction false} TimerCount(plan: Plan, v: Variant, ks: seq<Kernel>, es: seq<Event>, pid: nat, n: nat, i: nat)
    requires Trace(plan, v, ks, es) && Inv(plan, ks[0]) && ks[0].lastReleased == ks[0].tick >= 0
    requires n >= 1 && forall j | 0 <= j < |ks| :: HasDevice(ks[j], pid, n)
    requires i <= |es|
    ensures Inv(plan, ks[i]) && ks[i].lastReleased == ks[i].tick >= 0
    ensures Enqueued(v, ks, es, pid, i, true) == ks[i].tick / n - ks[0].tick / n
  {
    hide Step, Inv, Allowed, StepReleases;
    if i > 0 {
      var k, e := ks[i - 1], es[i - 1];
      TimerCount(plan, v, ks, es, pid, n, i - 1);
      assert Follows(plan, v, k, e, ks[i - 1 + 1]);
      TraceKeepsInv(plan, v, ks, es, i);
      InvClock(plan, k);
      StepClock(plan, v, k, e, ks[i]);
      if e == Timer {
        TimerReleases(v, k, pid, n);
        QuotientStep(k.tick, n);
      }
    }
  }

  /** Whether the check triggered by a yield in state k finds it has to release pid a second time. */
  ghost predicate ReleasedAgain(v: Variant, k: Kernel, pid: nat) {
    pid in StepReleases(v, k, Yields)
  }

  /** In the code as written this happens exactly if the slot has an age, counted without the device
      debt, and the rate of pid divides the tick. */
  lemma ReleasedAgainIff(v: Variant, k: Kernel, pid: nat, n: nat)
    requires TableOk(k) && FlagsOk(k) && HasDevice(k, pid, n) && n >= 1 && !v.oncePerTick
    requires LivePid(k.procs, k.current) && !Flagged(k.procs, k.current) && MarkYielded(k).Running?
    ensures ReleasedAgain(v, k, pid) <==> k.tick != k.lastChange && k.tick % n == 0
  {
    hide DueFrom;
    SlotOfLive(k.procs, k.current);
    var k1 := MarkYielded(k).k;
    assert SameButFlags(k.procs, k1.procs);
    DeviceIgnoresFlags(k, k1, pid, n);
    assert TableOk(k1);
    DueAre(k1, 0);
  }

  lemma DeviceIgnoresFlags(k: Kernel, k1: Kernel, pid: nat, n: nat)
    requires HasDevice(k, pid, n) && SameButFlags(k.procs, k1.procs)
    ensures HasDevice(k1, pid, n)
  {
    var i :| 0 <= i < |k.procs| && k.procs[i].pid == pid && k.procs[i].level == Device && k.procs[i].n == n;
    assert k1.procs[i].pid == pid;
  }

  /** A yield that is not ignored finds an age of the slot in a tick that the rate n divides. */
  ghost predicate YieldsWhenDue(k: Kernel, e: Event, n: nat)
    requires n >= 1
  {
    e == Yields && !Flagged(k.procs, k.current) && k.tick != k.lastChange && k.tick % n == 0
  }

  /** No event but the timer's enqueues pid, exactly if none is such a yield. */
  lemma CallCountZeroIff(plan: Plan, v: Variant, k: Kernel, e: Event, pid: nat, n: nat)
    requires Inv(plan, k) && Allowed(plan, k, e) && e != Timer && HasDevice(k, pid, n) && n >= 1 && !v.oncePerTick
    ensures Count(StepReleases(v, k, e), pid) == 0 <==> !YieldsWhenDue(k, e, n)
  {
    hide Core, DueFrom;
    if e == Yields {
      YieldIsCheck(plan, v, k);
      InvClock(plan, k);
      SlotOfLive(k.procs, k.current);
      FlagAt(k, SlotOf(k.procs, k.current));
      if !Flagged(k.procs, k.current) {
        ReleasedAgainIff(v, k, pid, n);
      }
      CountIn(StepReleases(v, k, e), pid);
    }
  }

  lemma CountIn(s: seq<nat>, pid: nat)
    ensures Count(s, pid) == 0 <==> pid !in s
  {
  }

  /** None of the first i events is such a yield. */
  ghost predicate Quiet(ks: seq<Kernel>, es: seq<Event>, n: nat, i: nat)
    requires |ks| == |es| + 1 && i <= |es| && n >= 1
  {
    forall j | 0 <= j < i :: !YieldsWhenDue(ks[j], es[j], n)
  }

  /** The checks of yields enqueue pid altogether never exactly if no such yield occurs. */
  lemma {:induction false} YieldCountZeroIff(plan: Plan, v: Variant, ks: seq<Kernel>, es: seq<Event>,
        pid: nat, n: nat, i: nat)
    requires Trace(plan, v, ks, es) && Inv(plan, ks[0]) && i <= |es| && n >= 1 && !v.oncePerTick
    requires forall j | 0 <= j < |ks| :: HasDevice(ks[j], pid, n)
    ensures Enqueued(v, ks, es, pid, i, false) == 0 <==> Quiet(ks, es, n, i)
  {
    hide StepReleases, Count, Inv, Step, Allowed, YieldsWhenDue;
    if i > 0 {
      YieldCountZeroIff(plan, v, ks, es, pid, n, i - 1);
      TraceKeepsInv(plan, v, ks, es, i - 1);
      assert Follows(plan, v, ks[i - 1], es[i - 1], ks[i - 1 + 1]);
      if es[i - 1] != Timer {
        CallCountZeroIff(plan, v, ks[i - 1], es[i - 1], pid, n);
      } else {
        TimerIsNoYield(ks[i - 1], n);
      }
    }
  }

  lemma TimerIsNoYield(k: Kernel, n: nat)
    requires n >= 1
    ensures !YieldsWhenDue(k, Timer, n)
  {
  }

  /** As written, a device of rate n, alive from tick c to tick t, is enqueued exactly floor(t/n) - floor(c/n)
      times if and only if no process yields, with its flag clear, in a tick that n divides and in which the
      slot has an age. */
  lemma ReleasesExactIff(plan: Plan, v: Variant, ks: seq<Kernel>, es: seq<Event>, pid: nat, n: nat)
    requires !v.oncePerTick
    requires |ks| == |es| + 1 && Trace(plan, v, ks, es)
    requires Inv(plan, ks[0]) && ks[0].lastReleased == ks[0].tick >= 0
    requires n >= 1 && forall j | 0 <= j < |ks| :: HasDevice(ks[j], pid, n)
    ensures Enqueued(v, ks, es, pid, |es|, true) + Enqueued(v, ks, es, pid, |es|, false)
            == ks[|es|].tick / n - ks[0].tick / n
            <==> forall j | 0 <= j < |es| :: !YieldsWhenDue(ks[j], es[j], n)
  {
    hide Trace, Inv, Enqueued;
    TimerCount(plan, v, ks, es, pid, n, |es|);
    YieldCountZeroIff(plan, v, ks, es, pid, n, |es|);
  }

  lemma {:induction false} YieldsReleaseNothing(plan: Plan, v: Variant, ks: seq<Kernel>, es: seq<Event>,
        pid: nat, n: nat, i: nat)
    requires v.oncePerTick && |ks| == |es| + 1 && Trace(plan, v, ks, es) && i <= |es|
    requires Inv(plan, ks[0]) && ks[0].lastReleased == ks[0].tick >= 0
    requires n >= 1 && forall j | 0 <= j < |ks| :: HasDevice(ks[j], pid, n)
    ensures Enqueued(v, ks, es, pid, i, false) == 0
  {
    hide Trace, Inv, StepReleases;
    if i > 0 {
      YieldsReleaseNothing(plan, v, ks, es, pid, n, i - 1);
      if es[i - 1] != Timer {
        TimerCount(plan, v, ks, es, pid, n, i - 1);
        NothingNew(v, ks[i - 1], es[i - 1]);
      }
    }
  }

  lemma NothingNew(v: Variant, k: Kernel, e: Event)
    requires v.oncePerTick && k.lastReleased == k.tick && e != Timer
    ensures StepReleases(v, k, e) == []
  {
  }

  /** With the release tied to a new tick, no yield releases anything, so the count is always exact. */
  lemma ReleasesExact(plan: Plan, v: Variant, ks: seq<Kernel>, es: seq<Event>, pid: nat, n: nat)
    requires v.oncePerTick
    requires |ks| == |es| + 1 && Trace(plan, v, ks, es)
    requires Inv(plan, ks[0]) && ks[0].lastReleased == ks[0].tick >= 0
    requires n >= 1 && forall j | 0 <= j < |ks| :: HasDevice(ks[j], pid, n)
    ensures Enqueued(v, ks, es, pid, |es|, true) + Enqueued(v, ks, es, pid, |es|, false)
            == ks[|es|].tick / n - ks[0].tick / n
  {
    hide Trace, Inv, Enqueued, StepReleases;
    TimerCount(plan, v, ks, es, pid, n, |es|);
    YieldsReleaseNothing(plan, v, ks, es, pid, n, |es|);
  }

  // ----- The debt of a chain of devices -----

  /** A device runs in a launched plan, as the front of its ring. */
  ghost predicate InChain(plan: Plan, k: Kernel) {
    Inv(plan, k) && DeviceRunning(k) && k.index != INVALID_IDX && !Flagged(k.procs, k.current)
  }

  /** While the front device keeps running, a check changes neither the debt nor the time of dispatch. */
  lemma ChainTick(plan: Plan, v: Variant, k: Kernel, k1: Kernel)
    requires InChain(plan, k) && k1 == k.(tick := k.tick + 1) && Check(plan, v, k1).Running?
    ensures Check(plan, v, k1) == Running(AfterRelease(v, k1))
  {
    hide CheckPlan, CheckQueued;
    ReadyForCheck(plan, k, k1);
    ReleaseOk(plan, v, k1);
    CheckIsQueued(plan, v, k1);
    HeadKeepsRunning(plan, v, AfterRelease(v, k1));
  }

  /** Either a device is running and the time since the last dispatch has gone into debt, or the chain has
      ended and the time-up test has seen an age equal to the debt. */
  ghost predicate ChainMoves(plan: Plan, k: Kernel, k': Kernel)
    requires WellFormedPlan(plan) && k.index < |plan.names|
  {
    && k'.tick == k.tick
    && if DeviceRunning(k') then
         k'.index == k.index && k'.debt == k.debt + (k.tick - k.lastChange) && k'.lastChange == k.tick
       else k'.debt == 0 && (k'.index, k'.tick - k'.lastChange) == Normal(plan, k.index, k.debt)
  }

  /** When a device yields, either the next one is dispatched and the time since the last dispatch goes
      into debt, or the chain ends and the time-up test sees an age equal to the debt. */
  lemma ChainYield(plan: Plan, v: Variant, k: Kernel)
    requires InChain(plan, k) && Yield(plan, v, k).Running?
    ensures ChainMoves(plan, k, Yield(plan, v, k).k)
  {
    hide Check, CheckQueued, MarkYielded, Yield, Core, FlagsOk, BeforeCheck;
    YieldIsCheck(plan, v, k);
    MarkYieldedOk(plan, k);
    var k1 := CheckStart(k, Yields);
    SameLevels(k.procs, k1.procs, k.current);
    ReleaseKeepsReady(plan, v, k1);
    CheckIsQueued(plan, v, k1);
    InvClock(plan, k);
    ChainCheck(plan, v, AfterRelease(v, k1));
  }

  lemma ChainCheck(plan: Plan, v: Variant, k: Kernel)
    requires Ready(plan, k) && k.index != INVALID_IDX && DeviceRunning(k) && Flagged(k.procs, k.current)
    requires CheckQueued(plan, v, k).Running?
    ensures ChainMoves(plan, k, CheckQueued(plan, v, k).k)
  {
    hide SlotCheck, CheckProcess;
    if k.devices != [] && k.devices[0] != k.current {
      HeadIsDevice(plan, v, k);
    } else {
      SlotOfLive(k.procs, k.current);
      var i := SlotOf(k.procs, k.current);
      LevelUnique(k, i);
      FlagAt(k, i);
      CheckPlanSettles(plan, v, k);
      CheckProcessNormal(plan, v, k, k.procs[i]);
    }
  }

  /** Relates the debt to the age of the slot when its chain of devices began: age of the slot at the first
      dispatch, and the tick of that dispatch. */
  ghost predicate ChainDebt(k: Kernel, age: int, first: int) {
    k.debt == age + (k.lastChange - first)
  }

  lemma ChainStep(plan: Plan, v: Variant, k: Kernel, e: Event, k': Kernel, age: int, first: int)
    requires InChain(plan, k) && Follows(plan, v, k, e, k') && ChainDebt(k, age, first)
    requires e != Terminates && DeviceRunning(k')
    ensures InChain(plan, k') && ChainDebt(k', age, first) && k'.index == k.index
    ensures k'.lastChange == if e == Yields then k.tick else k.lastChange
  {
    hide Check, Yield, Create, Core, DueFrom;
    StepOk(plan, v, k, e);
    StillFront(plan, k');
    match e
    case Timer => ChainTick(plan, v, k, k.(tick := k.tick + 1));
    case Yields => ChainYield(plan, v, k);
    case Creates(level, n) => CreateClock(k, level, n);
  }

  lemma StillFront(plan: Plan, k: Kernel)
    requires Inv(plan, k) && DeviceRunning(k)
    ensures !Flagged(k.procs, k.current)
  {
  }

  lemma CreateClock(k: Kernel, level: Level, n: nat)
    ensures var k' := Create(k, level, n).0;
            k'.debt == k.debt && k'.lastChange == k.lastChange && k'.index == k.index
  {
  }

  /** A chain of devices without terminations, from the state after its first dispatch on: the age that
      the slot gets back when the last device yields is its age at the first dispatch plus the time between
      the first and the last dispatch. The running time of the last device is not charged to the slot. */
  lemma {:induction false} ChainRestoresAge(plan: Plan, v: Variant, ks: seq<Kernel>, es: seq<Event>, age: int, i: nat)
    requires |ks| == |es| + 1 && Trace(plan, v, ks, es)
    requires InChain(plan, ks[0]) && ks[0].debt == age && ks[0].lastChange == ks[0].tick
    requires i < |es| && forall j | 0 <= j <= i :: DeviceRunning(ks[j]) && es[j] != Terminates
    ensures InChain(plan, ks[i]) && ChainDebt(ks[i], age, ks[0].tick) && ks[i].index == ks[0].index
    ensures es[i] == Yields && !DeviceRunning(ks[i + 1]) ==>
              (ks[i + 1].index, ks[i + 1].tick - ks[i + 1].lastChange) ==
              Normal(plan, ks[0].index, age + (ks[i].lastChange - ks[0].tick))
  {
    hide Step, InChain, Allowed, Normal, DeviceRunning;
    if i > 0 {
      ChainRestoresAge(plan, v, ks, es, age, i - 1);
      assert Follows(plan, v, ks[i - 1], es[i - 1], ks[i - 1 + 1]);
      ChainStep(plan, v, ks[i - 1], es[i - 1], ks[i], age, ks[0].tick);
    }
    assert Follows(plan, v, ks[i], es[i], ks[i + 1]);
    if es[i] == Yields && !DeviceRunning(ks[i + 1]) {
      ChainEnds(plan, v, ks[i], ks[i + 1]);
    }
  }

  lemma ChainEnds(plan: Plan, v: Variant, k: Kernel, k': Kernel)
    requires InChain(plan, k) && Follows(plan, v, k, Yields, k') && !DeviceRunning(k')
    ensures (k'.index, k'.tick - k'.lastChange) == Normal(plan, k.index, k.debt)
  {
    hide Yield;
    ChainYield(plan, v, k);
  }
}
