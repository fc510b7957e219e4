/** Runs from boot in which a device overruns its rate until a step aborts, whatever repairs are in force. */
module SchedulerOverruns {
  import opened Scheduler
  import opened SchedulerInvariant
  import opened SchedulerWitnesses

  const IDLE_PROCESS: Process := Process(1, IdlePriority, 0, false)

  /** A device of rate 1, pid 2, in the second slot; once it has terminated the slot is free. */
  function Solo(pid: nat): (procs: seq<Process>)
    ensures |procs| == MAXPROCESS && procs[0] == IDLE_PROCESS && procs[1] == Process(pid, Device, 1, false)
    ensures forall i | 2 <= i < MAXPROCESS :: procs[i] == FREE
  {
    Table([IDLE_PROCESS, Process(pid, Device, 1, false)])
  }

  function Copies(n: nat): seq<nat> {
    seq(n, _ => 2)
  }

  /** After tick t the device is queued t times. */
  function Queued(index: nat, lastChange: int, debt: int, current: nat, t: nat): Kernel {
    Kernel(Solo(2), [], Copies(t), index, lastChange, debt, current, 3, {}, t, t)
  }

  lemma SoloDue(t: int)
    ensures DueFrom(Solo(2), t, 0) == [2] && DueFrom(Solo(INVALIDPID), t, 0) == []
    ensures RatesOk(Solo(2)) && RatesOk(Solo(INVALIDPID))
  {
    NobodyDue(Solo(2), t, 2);
    NobodyDue(Solo(INVALIDPID), t, 0);
    assert DueFrom(Solo(2), t, 1) == [2];
  }

  lemma SoloSlots()
    ensures SlotOf(Solo(2), 1) == 0 && SlotOf(Solo(2), 2) == 1 && SlotOf(Solo(INVALIDPID), 2) == MAXPROCESS
    ensures Unflag(Solo(2), INVALIDPID) == Unflag(Solo(2), 1) == Unflag(Solo(2), 2) == Solo(2)
    ensures Unflag(Solo(INVALIDPID), INVALIDPID) == Solo(INVALIDPID)
    ensures PidFromName(Solo(2), 5) == INVALIDPID
    ensures Solo(2)[1 := Process(INVALIDPID, Device, 1, false)] == Solo(INVALIDPID)
  {
    var procs := Solo(2);
    assert procs[0].pid == 1 && procs[1].pid == 2;
    var dead := Solo(INVALIDPID);
    assert forall i | 0 <= i < MAXPROCESS :: dead[i].pid != 2;
  }

  lemma QueuedReleases(v: Variant, index: nat, lastChange: int, debt: int, current: nat, t: nat)
    requires lastChange <= t
    ensures var k := Queued(index, lastChange, debt, current, t).(tick := t + 1);
            RatesOk(k.procs) && AfterRelease(v, k) == Queued(index, lastChange, debt, current, t + 1)
  {
    SoloDue(t + 1);
    assert Copies(t) + [2] == Copies(t + 1);
  }

  lemma CreatedDevice(v: Variant)
    ensures Follows(FIVE, v, Boot(FIVE), Creates(Device, 1), Queued(INVALID_IDX, 0, 0, INVALIDPID, 0))
  {
    assert Boot(FIVE).procs == Table([IDLE_PROCESS]);
    NextFree([IDLE_PROCESS], Process(2, Device, 1, false));
    assert [IDLE_PROCESS] + [Process(2, Device, 1, false)] == [IDLE_PROCESS, Process(2, Device, 1, false)];
  }

  /** The first tick dispatches the device. */
  lemma FirstTick(v: Variant)
    ensures Follows(FIVE, v, Queued(INVALID_IDX, 0, 0, INVALIDPID, 0), Timer, Queued(INVALID_IDX, 1, 1, 2, 1))
  {
    hide Solo, DueFrom, SlotOf, Unflag, PidFromName, AfterRelease;
    QueuedReleases(v, INVALID_IDX, 0, 0, INVALIDPID, 0);
    SoloSlots();
  }

  /** The second one launches the plan, which preempts the device. */
  lemma SecondTick(v: Variant)
    ensures Follows(FIVE, v, Queued(INVALID_IDX, 1, 1, 2, 1), Timer, Queued(0, 2, 1, 1, 2))
  {
    hide Solo, DueFrom, SlotOf, Unflag, PidFromName, AfterRelease;
    QueuedReleases(v, INVALID_IDX, 1, 1, 2, 1);
    SoloSlots();
  }

  /** The third one dispatches it again. */
  lemma ThirdTick(v: Variant)
    ensures Follows(FIVE, v, Queued(0, 2, 1, 1, 2), Timer, Queued(0, 3, 2, 2, 3))
  {
    hide Solo, DueFrom, SlotOf, Unflag, PidFromName, AfterRelease;
    QueuedReleases(v, 0, 2, 1, 1, 2);
    SoloSlots();
  }

  /** From then on each tick queues it once more, until the ring is full. */
  lemma LaterTick(v: Variant, t: nat)
    requires 3 <= t <= MAXPROCESS
    ensures WellFormed(FIVE, Queued(0, 3, 2, 2, t))
    ensures t < MAXPROCESS ==> Follows(FIVE, v, Queued(0, 3, 2, 2, t), Timer, Queued(0, 3, 2, 2, t + 1))
    ensures t == MAXPROCESS ==> Step(FIVE, v, Queued(0, 3, 2, 2, t), Timer) == Aborted(QueueFull)
  {
    hide DueFrom, SlotOf, Unflag, PidFromName, AfterRelease;
    QueuedReleases(v, 0, 3, 2, 2, t);
    SoloSlots();
  }

  lemma ExecFollows(plan: Plan, v: Variant, k: Kernel, e: Event, k': Kernel, es: seq<Event>)
    requires Follows(plan, v, k, e, k') && WellFormed(plan, k')
    ensures Exec(plan, v, k, [e] + es) == Exec(plan, v, k', es)
  {
    hide Step, Allowed, WellFormed;
    assert ([e] + es)[1..] == es;
  }

  function Ticks(n: nat): seq<Event> {
    seq(n, _ => Timer)
  }

  lemma {:induction false} RingFills(v: Variant, t: nat)
    requires 3 <= t <= MAXPROCESS
    ensures WellFormed(FIVE, Queued(0, 3, 2, 2, t))
    ensures Exec(FIVE, v, Queued(0, 3, 2, 2, t), Ticks(MAXPROCESS + 1 - t)) == Aborted(QueueFull)
    decreases MAXPROCESS - t
  {
    hide Step, Allowed, WellFormed, Queued;
    LaterTick(v, t);
    var rest := Ticks(MAXPROCESS - t);
    assert Ticks(MAXPROCESS + 1 - t) == [Timer] + rest;
    if t < MAXPROCESS {
      RingFills(v, t + 1);
      ExecFollows(FIVE, v, Queued(0, 3, 2, 2, t), Timer, Queued(0, 3, 2, 2, t + 1), rest);
    }
  }

  lemma ThreeTicks(v: Variant, es: seq<Event>)
    ensures WellFormed(FIVE, Queued(0, 3, 2, 2, 3))
    ensures Exec(FIVE, v, Boot(FIVE), [Creates(Device, 1)] + ([Timer] + ([Timer] + ([Timer] + es))))
            == Exec(FIVE, v, Queued(0, 3, 2, 2, 3), es)
  {
    hide *;
    CreatedDevice(v);
    FirstTick(v);
    SecondTick(v);
    ThirdTick(v);
    QueuedWellFormed();
    var k1, k2 := Queued(INVALID_IDX, 0, 0, INVALIDPID, 0), Queued(INVALID_IDX, 1, 1, 2, 1);
    var k3, k4 := Queued(0, 2, 1, 1, 2), Queued(0, 3, 2, 2, 3);
    ExecFollows(FIVE, v, k3, Timer, k4, es);
    ExecFollows(FIVE, v, k2, Timer, k3, [Timer] + es);
    ExecFollows(FIVE, v, k1, Timer, k2, [Timer] + ([Timer] + es));
    ExecFollows(FIVE, v, Boot(FIVE), Creates(Device, 1), k1, [Timer] + ([Timer] + ([Timer] + es)));
  }

  lemma QueuedWellFormed()
    ensures WellFormed(FIVE, Boot(FIVE))
    ensures forall index, lastChange, debt, current, t {:trigger Queued(index, lastChange, debt, current, t)} ::
              index == 0 || index == INVALID_IDX ==> WellFormed(FIVE, Queued(index, lastChange, debt, current, t))
  {
  }

  /** A device of rate 1 that never yields fills the ring: at tick 17 the kernel aborts. */
  lemma OverrunFillsRing(v: Variant)
    ensures Exec(FIVE, v, Boot(FIVE), [Creates(Device, 1)] + Ticks(MAXPROCESS + 1)) == Aborted(QueueFull)
  {
    hide Exec, Queued, WellFormed, Boot;
    RingFills(v, 3);
    ThreeTicks(v, Ticks(MAXPROCESS - 2));
    assert Ticks(MAXPROCESS + 1) == [Timer] + ([Timer] + ([Timer] + Ticks(MAXPROCESS - 2)));
  }

  /** The device terminates while it is queued twice more. */
  lemma DeviceTerminates(v: Variant)
    ensures WellFormed(FIVE, Queued(0, 3, 2, 2, 3))
    ensures Exec(FIVE, v, Queued(0, 3, 2, 2, 3), [Terminates, Timer]) == Aborted(UnknownPid)
  {
    hide DueFrom, SlotOf, Unflag, PidFromName, Copies;
    var k := Queued(0, 3, 2, 2, 3);
    SoloSlots();
    SoloDue(4);
    assert k.devices == [2, 2, 2] by {
      ThreeCopies();
    }
    var dead := Kernel(Solo(INVALIDPID), [], [2, 2], 0, 3, 2, INVALIDPID, 3, {}, 3, 3);
    assert Terminate(v, k) == Running(dead);
    assert [2, 2] + [] == [2, 2];
    assert Step(FIVE, v, dead, Timer) == Aborted(UnknownPid);
    assert [Terminates, Timer][1..] == [Timer];
  }

  lemma ThreeCopies()
    ensures Copies(3) == [2, 2, 2]
  {
  }

  /** The device is queued three times when it terminates. The next check meets a dead front and aborts. */
  lemma OverrunLeavesDead(v: Variant)
    ensures Exec(FIVE, v, Boot(FIVE), [Creates(Device, 1), Timer, Timer, Timer, Terminates, Timer])
            == Aborted(UnknownPid)
  {
    hide Exec, Queued, WellFormed, Boot;
    DeviceTerminates(v);
    var es := [Terminates, Timer];
    ThreeTicks(v, es);
    assert [Creates(Device, 1), Timer, Timer, Timer, Terminates, Timer]
        == [Creates(Device, 1)] + ([Timer] + ([Timer] + ([Timer] + es)));
  }
}
