/** The scheduler as the kernel runs it, on its global variables. Every method refines a function of Scheduler. */
module KernelScheduler {
  import opened Scheduler
  import opened Words
  import NameRegistry
  import PidRing

  class KernelScheduler {
    const plan: Plan
    const v: Variant
    const procs: array<Process>
    const sporadic: PidRing.PidRing
    const devices: PidRing.PidRing
    const registry: array<nat>
    var index: nat
    var lastChange: int
    var debt: int
    var current: nat
    var nextPid: nat
    var tick: int
    var lastReleased: int

    ghost predicate Valid()
      reads this, sporadic, devices
    {
      && WellFormedPlan(plan)
      && procs.Length == MAXPROCESS && registry.Length == MAXPROCESS / 8 + 1
      && sporadic.Valid() && devices.Valid() && sporadic != devices
      && (sporadic.buf != devices.buf && sporadic.buf != registry && devices.buf != registry)
      && procs as object != sporadic.buf as object && procs as object != devices.buf as object
      && procs as object != registry as object
      && (index < |plan.names| || index == INVALID_IDX)
    }

    /** The state of the kernel as a value. */
    ghost function View(): Kernel
      requires Valid()
      reads this, procs, sporadic, sporadic.buf, devices, devices.buf, registry
    {
      Kernel(procs[..], sporadic.Contents(), devices.Contents(), index, lastChange, debt, current, nextPid,
             NameRegistry.Names(registry[..]), tick, lastReleased)
    }

    /** OS_Init, and the creation of the idle process in OS_Start. */
    constructor (plan: Plan, v: Variant)
      requires WellFormedPlan(plan)
      ensures Valid() && View() == Boot(plan) && this.plan == plan && this.v == v
      ensures fresh(procs) && fresh(registry)
      ensures fresh(sporadic) && fresh(sporadic.buf) && fresh(devices) && fresh(devices.buf)
    {
      this.plan, this.v := plan, v;
      procs := new Process[MAXPROCESS](_ => Process(INVALIDPID, IdlePriority, 0, false));
      sporadic := new PidRing.PidRing();
      devices := new PidRing.PidRing();
      registry := new nat[MAXPROCESS / 8 + 1](_ => 0);
      index, lastChange, debt, current := INVALID_IDX, 0, 0, INVALIDPID;
      nextPid, tick, lastReleased := plan.idle + 1, 0, 0;
      new;
      procs[0] := Process(plan.idle, IdlePriority, 0, false);
      assert procs[..] == Boot(plan).procs;
      NameRegistry.NoNames(registry[..]);
    }

    /** process_index_from_pid and find_available_process_index: the first slot with this pid. */
    method FindSlot(pid: nat) returns (i: nat)
      requires Valid()
      ensures i == SlotOf(procs[..], pid)
    {
      i := 0;
      while i < MAXPROCESS && procs[i].pid != pid
        invariant i <= MAXPROCESS && SlotOf(procs[..], pid) == SlotFrom(procs[..], pid, i)
      {
        i := i + 1;
      }
    }

    /** pid_from_name */
    method FindByName(n: int) returns (pid: nat)
      requires Valid()
      ensures pid == PidFromName(procs[..], n)
    {
      if n == IDLE {
        return INVALIDPID;
      }
      for i := 0 to MAXPROCESS
        invariant NamedFrom(procs[..], n, 0) == NamedFrom(procs[..], n, i)
      {
        if procs[i].pid != INVALIDPID && procs[i].n == n {
          return procs[i].pid;
        }
      }
      return INVALIDPID;
    }

    /** switch_process. The result says whether the kernel went on. */
    method SwitchProcess(pid: nat) returns (ok: bool)
      requires Valid()
      modifies this`current, procs
      ensures Valid()
      ensures if ok then Switch(old(View()), pid) == Running(View()) else Switch(old(View()), pid).Aborted?
    {
      if current == pid || pid == INVALIDPID {
        return true;
      }
      if current != INVALIDPID {
        var i := FindSlot(current);
        if i == MAXPROCESS {
          return false;
        }
        procs[i] := procs[i].(yielded := false);
      }
      ghost var cleared := procs[..];
      assert cleared == Unflag(old(procs[..]), old(current));
      var j := FindSlot(pid);
      if j == MAXPROCESS {
        return false;
      }
      current := pid;
      return true;
    }

    /** The release loop of check_schedule. It fails where the source divides by a rate of 0. */
    method ReleaseDevices() returns (ok: bool)
      requires Valid()
      modifies devices`length, devices.buf
      ensures Valid()
      ensures ok <==> RatesOk(procs[..]) && |old(View()).devices + DueFrom(procs[..], tick, 0)| <= MAXPROCESS
      ensures ok ==> View() == old(View()).(devices := old(View()).devices + DueFrom(procs[..], tick, 0))
    {
      ghost var all := devices.Contents() + DueFrom(procs[..], tick, 0);
      for i := 0 to MAXPROCESS
        invariant Valid()
        invariant devices.Contents() + DueFrom(procs[..], tick, i) == all
        invariant View() == old(View()).(devices := devices.Contents())
        invariant RatesOk(procs[..i])
      {
        var p := procs[i];
        assert procs[..i + 1] == procs[..i] + [p];
        if p.pid == INVALIDPID {
          continue;
        }
        if p.level == Device {
          if p.n == 0 {
            return false;
          }
          if tick % p.n == 0 {
            if devices.length >= MAXPROCESS {
              return false;
            }
            devices.Push(p.pid);
          }
        }
      }
      assert procs[..MAXPROCESS] == procs[..];
      return true;
    }

    /** The end of check_schedule. */
    method DispatchNext(next: nat, gaveUp: bool) returns (ok: bool)
      requires Valid()
      modifies this`current, procs
      ensures Valid()
      ensures if ok then Dispatch(plan, old(View()), next, gaveUp) == Running(View())
              else Dispatch(plan, old(View()), next, gaveUp).Aborted?
    {
      hide Switch;
      var target := next;
      if next == INVALIDPID || gaveUp {
        if sporadic.length == 0 {
          ok := SwitchProcess(plan.idle);
          return;
        }
        target := sporadic.Head();
      }
      ok := SwitchProcess(target);
    }

    /** From the label PERIODIC_CHECK on. */
    method PeriodicCheck(age: int, next: nat, gaveUp: bool) returns (ok: bool)
      requires Valid() && index != INVALID_IDX
      modifies this`current, this`lastChange, this`index, procs
      ensures Valid()
      ensures if ok then SlotCheck(plan, v, old(View()), age, next, gaveUp) == Running(View())
              else SlotCheck(plan, v, old(View()), age, next, gaveUp).Aborted?
    {
      hide Dispatch;
      if plan.maxes[index] < age {
        lastChange := tick;
        index := NextSlot(plan, index);
        var named := FindByName(plan.names[index]);
        ok := DispatchNext(named, gaveUp && !v.forgetOnChange);
      } else {
        ok := DispatchNext(next, gaveUp);
      }
    }

    /** The case distinction on the level of the running process, in slot i. */
    method CheckRunning(i: nat, delta: int) returns (ok: bool)
      requires Valid() && index != INVALID_IDX && i < MAXPROCESS && delta == NonNegative(tick - lastChange)
      modifies this`current, this`lastChange, this`index, this`debt, procs, sporadic`idx, sporadic.buf
      ensures Valid()
      ensures if ok then CheckProcess(plan, v, old(View()), old(procs[i])) == Running(View())
              else CheckProcess(plan, v, old(View()), old(procs[i])).Aborted?
    {
      hide SlotCheck;
      var p := procs[i];
      match p.level
      case Device =>
        if p.yielded {
          lastChange := tick - debt;
          debt := 0;
          var age := tick - lastChange;
          if age < 0 {
            age := 1;
          }
          var named := FindByName(plan.names[index]);
          ok := PeriodicCheck(age, named, false);
        } else {
          ok := true;
        }
      case Sporadic =>
        if p.yielded {
          if sporadic.length == 0 {
            return false;
          }
          sporadic.Rotate();
        }
        ok := PeriodicCheck(delta, current, p.yielded);
      case _ =>
        ok := PeriodicCheck(delta, current, p.yielded);
    }

    /** check_schedule once the due devices are queued. */
    method CheckAfterRelease(delta: int) returns (ok: bool)
      requires Valid() && delta == tick - lastChange
      modifies this`current, this`lastChange, this`index, this`debt, procs, sporadic`idx, sporadic.buf
      ensures Valid()
      ensures if ok then CheckQueued(plan, v, old(View())) == Running(View())
              else CheckQueued(plan, v, old(View())).Aborted?
    {
      hide Switch, Dispatch, SlotCheck, CheckProcess;
      if devices.length > 0 {
        var head := devices.Head();
        if head != current {
          debt := debt + delta;
          lastChange := tick;
          ok := SwitchProcess(head);
          return;
        }
      }
      if index == INVALID_IDX {
        lastChange := tick;
        index := 0;
        var named := FindByName(plan.names[0]);
        ok := DispatchNext(named, false);
        return;
      }
      var age := delta;
      if age < 0 {
        age := 1;
      }
      if current == INVALIDPID {
        ok := PeriodicCheck(age, INVALIDPID, false);
        return;
      }
      var i := FindSlot(current);
      if i == MAXPROCESS {
        return false;
      }
      ok := CheckRunning(i, age);
    }

    /** check_schedule */
    method CheckSchedule() returns (ok: bool)
      requires Valid()
      modifies this`current, this`lastChange, this`index, this`debt, this`lastReleased
      modifies procs, sporadic`idx, sporadic.buf, devices`length, devices.buf
      ensures Valid()
      ensures if ok then Check(plan, v, old(View())) == Running(View()) else Check(plan, v, old(View())).Aborted?
    {
      hide CheckQueued;
      var delta := tick - lastChange;
      if if v.oncePerTick then tick != lastReleased else delta != 0 {
        ok := ReleaseDevices();
        if !ok {
          return;
        }
        lastReleased := tick;
      }
      assert View() == AfterRelease(v, old(View()));
      if devices.length > MAXPROCESS {
        return false;
      }
      ok := CheckAfterRelease(delta);
    }

    /** The timer callback, every time it has counted a full tick. */
    method TimerTick() returns (ok: bool)
      requires Valid()
      modifies this`tick, this`current, this`lastChange, this`index, this`debt, this`lastReleased
      modifies procs, sporadic`idx, sporadic.buf, devices`length, devices.buf
      ensures Valid()
      ensures if ok then Tick(plan, v, old(View())) == Running(View()) else Tick(plan, v, old(View())).Aborted?
    {
      hide Check;
      tick := tick + 1;
      assert View() == old(View()).(tick := old(tick) + 1);
      ok := CheckSchedule();
    }

    /** OS_Yield up to the interrupt. */
    method SetYielded(i: nat) returns (ok: bool)
      requires Valid() && current != INVALIDPID && i == SlotOf(procs[..], current) < MAXPROCESS
      modifies procs, devices`idx, devices`length, devices.buf
      ensures Valid()
      ensures if ok then MarkYielded(old(View())) == Running(View()) else MarkYielded(old(View())).Aborted?
    {
      procs[i] := procs[i].(yielded := true);
      assert procs[..] == old(procs[..])[i := old(procs[i]).(yielded := true)];
      if procs[i].level == Device {
        if devices.length == 0 {
          return false;
        }
        devices.Pop();
      }
      ok := true;
    }

    /** OS_Yield */
    method OsYield() returns (ok: bool)
      requires Valid()
      modifies this`current, this`lastChange, this`index, this`debt, this`lastReleased
      modifies procs, sporadic`idx, sporadic.buf, devices`idx, devices`length, devices.buf
      ensures Valid()
      ensures if ok then Yield(plan, v, old(View())) == Running(View()) else Yield(plan, v, old(View())).Aborted?
    {
      hide Check;
      if current == INVALIDPID {
        return false;
      }
      var i := FindSlot(current);
      if i == MAXPROCESS {
        return false;
      }
      if procs[i].yielded {
        return true;
      }
      ok := SetYielded(i);
      if ok {
        ok := CheckSchedule();
      }
    }

    /** OS_Create. Names of periodic and sporadic processes are numbers of bits of the registry. */
    method OsCreate(level: Level, n: nat) returns (pid: nat)
      requires Valid() && (UsesName(level) ==> n < NAMES)
      modifies this`nextPid, procs, registry, sporadic`length, sporadic.buf
      ensures Valid()
      ensures (View(), pid) == Create(old(View()), level, n)
    {
      var i := FindSlot(INVALIDPID);
      if i == MAXPROCESS {
        return INVALIDPID;
      }
      if UsesName(level) {
        NameRegistry.NamesAre(registry[..], n);
        ghost var was := registry[..];
        var done := NameRegistry.RegisterBit(registry, n);
        NameRegistry.Renamed(registry[..], NameRegistry.Names(was) + {n});
        if !done {
          assert NameRegistry.Names(was) + {n} == NameRegistry.Names(was);
          return INVALIDPID;
        }
      }
      pid := nextPid;
      nextPid := nextPid + 1;
      procs[i] := Process(pid, level, n, false);
      assert procs[..] == old(procs[..])[i := Process(pid, level, n, false)];
      if level == Sporadic {
        if sporadic.length >= MAXPROCESS {
          return INVALIDPID;
        }
        sporadic.Push(pid);
      }
    }

    /** unregister_name */
    method UnregisterName(n: nat)
      requires Valid() && n / WORD < registry.Length
      modifies registry
      ensures Valid()
      ensures NameRegistry.Names(registry[..]) == Unregister(v, NameRegistry.Names(old(registry[..])), n)
    {
      ghost var was := registry[..];
      NameRegistry.NamesAre(was, n);
      var done := NameRegistry.UnregisterBit(registry, n, v.clearOneBit);
      if done {
        NameRegistry.Renamed(registry[..], Unregister(v, NameRegistry.Names(was), n));
      }
    }

    /** OS_Terminate. The source reads the front of the ring without looking at its length; that the ring
        of the running process is not empty is part of the scheduler's invariant. */
    method OsTerminate() returns (ok: bool)
      requires Valid()
      requires MayTerminate(View())
      modifies this`current, procs, registry, sporadic`idx, sporadic`length, sporadic.buf
      modifies devices`idx, devices`length, devices.buf
      ensures Valid()
      ensures if ok then Terminate(v, old(View())) == Running(View()) else Terminate(v, old(View())).Aborted?
    {
      if current == INVALIDPID {
        return false;
      }
      var i := FindSlot(current);
      if i == MAXPROCESS {
        return false;
      }
      var p := procs[i];
      match p.level {
        case Device =>
          var head := devices.Head();
          if p.pid != head {
            return false;
          }
          devices.Pop();
        case Sporadic =>
          var head := sporadic.Head();
          if p.pid != head {
            return false;
          }
          sporadic.Pop();
          UnregisterName(p.n);
        case Periodic =>
          UnregisterName(p.n);
        case IdlePriority =>
          return false;
      }
      procs[i] := p.(pid := INVALIDPID);
      assert procs[..] == old(procs[..])[i := p.(pid := INVALIDPID)];
      current := INVALIDPID;
      ok := true;
    }
  }
}
