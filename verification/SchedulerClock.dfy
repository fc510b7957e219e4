/** The readings of the clock: steps move the tick by one or leave it, and the last release follows. */
module SchedulerClock {
  import opened Scheduler
  import opened SchedulerInvariant

  /** The outcome shows the same clock readings as k. */
  ghost predicate SameClock(k: Kernel, o: Outcome) {
    o.Running? ==> o.k.tick == k.tick && o.k.lastReleased == k.lastReleased
  }

  lemma SlotCheckClock(plan: Plan, v: Variant, k: Kernel, age: int, next: nat, gaveUp: bool)
    requires WellFormed(plan, k) && k.index != INVALID_IDX
    ensures SameClock(k, SlotCheck(plan, v, k, age, next, gaveUp))
  {
  }

  lemma CheckProcessClock(plan: Plan, v: Variant, k: Kernel, p: Process)
    requires WellFormed(plan, k) && k.index != INVALID_IDX
    ensures SameClock(k, CheckProcess(plan, v, k, p))
  {
    hide SlotCheck;
    var age := NonNegative(k.tick - k.lastChange);
    if p.level == Device && p.yielded {
      var k' := k.(lastChange := k.tick - k.debt, debt := 0);
      SlotCheckClock(plan, v, k', NonNegative(k.debt), PidFromName(k.procs, plan.names[k.index]), false);
    } else if p.level == Sporadic && p.yielded && k.sporadic != [] {
      SlotCheckClock(plan, v, k.(sporadic := k.sporadic[1..] + [k.sporadic[0]]), age, k.current, true);
    } else {
      SlotCheckClock(plan, v, k, age, k.current, p.yielded);
    }
  }

  lemma CheckQueuedClock(plan: Plan, v: Variant, k: Kernel)
    requires WellFormed(plan, k)
    ensures SameClock(k, CheckQueued(plan, v, k))
  {
    hide SlotCheck, CheckProcess;
    var i := SlotOf(k.procs, k.current);
    if k.index != INVALID_IDX {
      if i < |k.procs| {
        CheckProcessClock(plan, v, k, k.procs[i]);
      }
      SlotCheckClock(plan, v, k, NonNegative(k.tick - k.lastChange), INVALIDPID, false);
    }
  }

  lemma CheckClock(plan: Plan, v: Variant, k: Kernel)
    requires WellFormed(plan, k) && Check(plan, v, k).Running?
    ensures var k' := Check(plan, v, k).k;
            k'.tick == k.tick && k'.lastReleased == if Releases(v, k) then k.tick else k.lastReleased
  {
    hide CheckQueued;
    CheckQueuedClock(plan, v, AfterRelease(v, k));
  }

  lemma YieldClock(plan: Plan, v: Variant, k: Kernel)
    requires WellFormed(plan, k) && Yield(plan, v, k).Running?
    ensures var k' := Yield(plan, v, k).k;
            k'.tick == k.tick && (k'.lastReleased == k.lastReleased || k'.lastReleased == k.tick)
  {
    hide Check;
    if Yield(plan, v, k).k != k {
      CheckClock(plan, v, MarkYielded(k).k);
    }
  }

  /** Ticks rise by one with each timer event and never otherwise; the tick of the last release follows. */
  lemma StepClock(plan: Plan, v: Variant, k: Kernel, e: Event, k': Kernel)
    requires WellFormed(plan, k) && Step(plan, v, k, e) == Running(k') && ClockOk(k)
    ensures k'.tick == if e == Timer then k.tick + 1 else k.tick
    ensures k.lastReleased <= k.tick ==> k'.lastReleased <= k'.tick
    ensures k.lastReleased == k.tick ==> k'.lastReleased == k'.tick
  {
    hide Check, Yield;
    match e
    case Timer => CheckClock(plan, v, k.(tick := k.tick + 1));
    case Yields => YieldClock(plan, v, k);
    case Terminates =>
    case Creates(level, n) =>
  }
}
