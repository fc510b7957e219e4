/** The process table: what creation and termination do to it, and that no pid is ever issued twice. */
module SchedulerProcesses {
  import opened Scheduler
  import opened SchedulerInvariant
  import opened SchedulerSlots
  import opened SchedulerFlags
  import opened SchedulerRunning
  import opened Words

  // ----- One call -----

  /** Slot i is the first free one. */
  ghost predicate FirstFree(procs: seq<Process>, i: nat) {
    i < |procs| && procs[i].pid == 0 && forall j | 0 <= j < i :: procs[j].pid != 0
  }

  /** A successful creation puts a process with the next pid, its flag clear, into the first free slot, queues
      it if it is sporadic, registers its name if it has one, and does nothing else. */
  lemma CreateIs(plan: Plan, k: Kernel, level: Level, n: nat)
    requires Inv(plan, k) && Create(k, level, n).1 != 0
    ensures var (k', pid) := Create(k, level, n);
            && pid == k.nextPid
            && (exists i: nat :: FirstFree(k.procs, i) && k'.procs == k.procs[i := Process(pid, level, n, false)])
            && k' == k.(procs := k'.procs, nextPid := k.nextPid + 1,
                        sporadic := if level == Sporadic then k.sporadic + [pid] else k.sporadic,
                        names := if level == Periodic || level == Sporadic then k.names + {n} else k.names)
  {
    assert FirstFree(k.procs, SlotOf(k.procs, 0));
  }

  /** If the ring of sporadic processes were full, which RingFits excludes, creating another one would report a
      failure and leave it in the table all the same, without a place in the ring. */
  lemma FullRingHalfCreates(k: Kernel, n: nat)
    requires |k.sporadic| >= 16 && n !in k.names && exists i :: 0 <= i < |k.procs| && k.procs[i].pid == 0
    ensures var (k', pid) := Create(k, Sporadic, n);
            pid == 0 && k'.sporadic == k.sporadic && exists i :: 0 <= i < |k'.procs| && k'.procs[i].pid == k.nextPid
  {
    var i := SlotOf(k.procs, 0);
    assert Create(k, Sporadic, n).0.procs[i].pid == k.nextPid;
  }

  /** The state before any process was created. */
  function Blank(pid: nat): Kernel {
    Kernel(seq(MAXPROCESS, _ => Process(INVALIDPID, IdlePriority, 0, false)),
           [], [], INVALID_IDX, 0, 0, INVALIDPID, pid, {}, 0, 0)
  }

  /** The boot state is that in which OS_Start has created the idle process. */
  lemma BootIsCreation(plan: Plan)
    requires plan.idle != INVALIDPID
    ensures Create(Blank(plan.idle), IdlePriority, 0) == (Boot(plan), plan.idle)
  {
    assert Create(Blank(plan.idle), IdlePriority, 0).0.procs == Boot(plan).procs;
  }

  /** Termination frees the slot of the running process and no other, takes it from the front of its ring, and
      leaves nobody running. Of the names it takes away, if the process has one, that name, or as written all
      of its word. */
  lemma TerminateIs(plan: Plan, v: Variant, k: Kernel)
    requires Inv(plan, k) && k.current != 0 && k.current != plan.idle
    ensures Terminate(v, k).Running?
    ensures var k' := Terminate(v, k).k;
            && |k'.procs| == |k.procs| && k'.current == 0
            && (forall i | 0 <= i < |k.procs| ::
                  if k.procs[i].pid == k.current then k'.procs[i].pid == 0 else k'.procs[i] == k.procs[i])
            && k'.sporadic == (if LiveAt(k.procs, k.current, Sporadic) then k.sporadic[1..] else k.sporadic)
            && k'.devices == (if LiveAt(k.procs, k.current, Device) then k.devices[1..] else k.devices)
            && k' == k.(procs := k'.procs, sporadic := k'.sporadic, devices := k'.devices,
                        names := k'.names, current := 0)
    ensures forall i | 0 <= i < |k.procs| && k.procs[i].pid == k.current ::
              var n := k.procs[i].n;
              forall m :: m in Terminate(v, k).k.names <==>
                && m in k.names
                && (k.procs[i].level != Device && n in k.names ==> if v.clearOneBit then m != n else m / 32 != n / 32)
  {
    hide SporadicOk, DevicesOk, IdleOk, PlanOk, RatesOk, NamesFit, FlagsOk;
    SlotOfLive(k.procs, k.current);
    var i := SlotOf(k.procs, k.current);
    TerminateOk(plan, v, k);
    TerminateRuns(plan, v, k, i);
    LevelUnique(k, i);
  }

  /** OS_Terminate aborts exactly if nobody runs, or the idle process does. */
  lemma TerminateAbortsIff(plan: Plan, v: Variant, k: Kernel)
    requires Inv(plan, k)
    ensures Terminate(v, k).Aborted? <==> k.current == 0 || k.current == plan.idle
  {
    hide SporadicOk, DevicesOk, PlanOk, RatesOk, NamesFit, FlagsOk;
    if k.current == plan.idle && k.current != 0 {
      SlotOfLive(k.procs, k.current);
      LevelUnique(k, SlotOf(k.procs, k.current));
    } else if k.current != 0 {
      TerminateOk(plan, v, k);
    }
  }

  /** OS_Yield aborts if nobody runs. */
  lemma NobodyYields(plan: Plan, v: Variant, k: Kernel)
    requires WellFormed(plan, k) && k.current == 0
    ensures Yield(plan, v, k) == Aborted(UnknownPid)
  {
  }

  // ----- Whole runs -----

  /** From k to k' processes have come only with new pids, and those that were there have kept level and number. */
  ghost predicate OnlyNewPids(k: Kernel, k': Kernel) {
    && k.nextPid <= k'.nextPid
    && forall i | 0 <= i < |k'.procs| && 0 < k'.procs[i].pid < k.nextPid ::
         exists j :: && 0 <= j < |k.procs| && k.procs[j].pid == k'.procs[i].pid
                     && k.procs[j].level == k'.procs[i].level && k.procs[j].n == k'.procs[i].n
  }

  lemma SameTable(k: Kernel, k': Kernel)
    requires SameButFlags(k.procs, k'.procs) && k'.nextPid == k.nextPid
    ensures OnlyNewPids(k, k')
  {
    forall i | 0 <= i < |k'.procs|
      ensures k.procs[i].pid == k'.procs[i].pid
      ensures k.procs[i].level == k'.procs[i].level && k.procs[i].n == k'.procs[i].n
    {
    }
  }

  lemma FewerProcesses(k: Kernel, k': Kernel)
    requires |k'.procs| == |k.procs| && k'.nextPid == k.nextPid
    requires forall i | 0 <= i < |k.procs| :: k'.procs[i] == k.procs[i] || k'.procs[i].pid == 0
    ensures OnlyNewPids(k, k')
  {
  }

  lemma CheckOnlyNewPids(plan: Plan, v: Variant, k: Kernel)
    requires Ready(plan, k) && Check(plan, v, k).Running?
    ensures OnlyNewPids(k, Check(plan, v, k).k)
  {
    hide Check, OnlyNewPids, Timed;
    CheckIs(plan, v, k);
    GoneSame(AfterRelease(v, k), Check(plan, v, k).k);
    SameTable(k, Check(plan, v, k).k);
  }

  lemma YieldOnlyNewPids(plan: Plan, v: Variant, k: Kernel)
    requires Inv(plan, k) && Allowed(plan, k, Yields) && Yield(plan, v, k).Running?
    ensures OnlyNewPids(k, Yield(plan, v, k).k)
  {
    hide Check, Core, OnlyNewPids, Yield, MarkYielded;
    YieldIsCheck(plan, v, k);
    if Checks(k, Yields) {
      var k1 := CheckStart(k, Yields);
      MarkYieldedOk(plan, k);
      SameTable(k, k1);
      CheckOnlyNewPids(plan, v, k1);
      OnlyNewPidsTwice(k, k1, Check(plan, v, k1).k);
    } else {
      SameReflexive(k.procs);
      SameTable(k, k);
    }
  }

  lemma OnlyNewPidsTwice(a: Kernel, b: Kernel, c: Kernel)
    requires OnlyNewPids(a, b) && OnlyNewPids(b, c)
    ensures OnlyNewPids(a, c)
  {
    forall i | 0 <= i < |c.procs| && 0 < c.procs[i].pid < a.nextPid
      ensures exists j :: && 0 <= j < |a.procs| && a.procs[j].pid == c.procs[i].pid
                          && a.procs[j].level == c.procs[i].level && a.procs[j].n == c.procs[i].n
    {
      var j :| && 0 <= j < |b.procs| && b.procs[j].pid == c.procs[i].pid
               && b.procs[j].level == c.procs[i].level && b.procs[j].n == c.procs[i].n;
    }
  }

  lemma StepOnlyNewPids(plan: Plan, v: Variant, k: Kernel, e: Event, k': Kernel)
    requires Inv(plan, k) && Follows(plan, v, k, e, k')
    ensures OnlyNewPids(k, k')
  {
    hide Check, Yield, Terminate, OnlyNewPids, Core;
    match e
    case Timer =>
      CheckStartOk(plan, k, e);
      CheckOnlyNewPids(plan, v, k.(tick := k.tick + 1));
      AnyClock(k, k.tick + 1, k');
    case Yields => YieldOnlyNewPids(plan, v, k);
    case Terminates =>
      TerminateIs(plan, v, k);
      FewerProcesses(k, k');
    case Creates(level, n) => CreateOnlyNewPids(plan, k, level, n);
  }

  lemma AnyClock(k: Kernel, tick: int, k': Kernel)
    requires OnlyNewPids(k.(tick := tick), k')
    ensures OnlyNewPids(k, k')
  {
  }

  lemma CreateOnlyNewPids(plan: Plan, k: Kernel, level: Level, n: nat)
    requires Inv(plan, k) && Allowed(plan, k, Creates(level, n))
    ensures OnlyNewPids(k, Create(k, level, n).0)
  {
    CreateOk(plan, k, level, n);
    if Create(k, level, n).1 != 0 {
      CreateIs(plan, k, level, n);
    } else {
      SameReflexive(k.procs);
      SameTable(k, k);
    }
  }

  /** In every run a process found with a pid that had been issued by an earlier state was there in that state
      already, with the same level and number. So no pid is issued twice, and whoever is dead stays dead. */
  lemma {:induction false} PidsAreNotReused(plan: Plan, v: Variant, ks: seq<Kernel>, es: seq<Event>, i: nat, j: nat)
    requires Trace(plan, v, ks, es) && Inv(plan, ks[0]) && i <= j < |ks|
    ensures OnlyNewPids(ks[i], ks[j])
    decreases j
  {
    hide Step, Allowed, Inv, OnlyNewPids;
    if i == j {
      SameReflexive(ks[i].procs);
      SameTable(ks[i], ks[i]);
    } else {
      PidsAreNotReused(plan, v, ks, es, i, j - 1);
      TraceKeepsInv(plan, v, ks, es, j - 1);
      assert Follows(plan, v, ks[j - 1], es[j - 1], ks[j - 1 + 1]);
      StepOnlyNewPids(plan, v, ks[j - 1], es[j - 1], ks[j]);
      OnlyNewPidsTwice(ks[i], ks[j - 1], ks[j]);
    }
  }
}
