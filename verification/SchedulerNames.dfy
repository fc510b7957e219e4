/** The name registry: which names are taken, and by whom. */
module SchedulerNames {
  import opened Scheduler
  import opened SchedulerInvariant
  import opened Words

  /** p is a live process that uses name n. */
  predicate Uses(p: Process, n: nat) {
    Live(p) && UsesName(p.level) && p.n == n
  }

  ghost predicate Taken(procs: seq<Process>, n: nat) {
    exists i :: 0 <= i < |procs| && Uses(procs[i], n)
  }

  /** The registered names are exactly those in use, and no name is used twice. */
  ghost predicate NamesOk(k: Kernel) {
    && (forall n :: n in k.names <==> Taken(k.procs, n))
    && (forall i, j, n | 0 <= i < j < |k.procs| :: Uses(k.procs[i], n) ==> !Uses(k.procs[j], n))
  }

  // ----- Checks do not touch names -----

  /** The outcome has the table of k up to flags, and its names. */
  ghost predicate SameNames(k: Kernel, o: Outcome) {
    o.Running? ==> SameButFlags(k.procs, o.k.procs) && o.k.names == k.names
  }

  lemma SwitchNames(k: Kernel, pid: nat)
    ensures SameNames(k, Switch(k, pid))
  {
    UnflagSame(k.procs, k.current);
  }

  lemma DispatchNames(plan: Plan, k: Kernel, next: nat, gaveUp: bool)
    ensures SameNames(k, Dispatch(plan, k, next, gaveUp))
  {
    hide Switch;
    SwitchNames(k, plan.idle);
    SwitchNames(k, next);
    if k.sporadic != [] {
      SwitchNames(k, k.sporadic[0]);
    }
  }

  lemma SlotCheckNames(plan: Plan, v: Variant, k: Kernel, age: int, next: nat, gaveUp: bool)
    requires WellFormed(plan, k) && k.index != INVALID_IDX
    ensures SameNames(k, SlotCheck(plan, v, k, age, next, gaveUp))
  {
    hide Dispatch;
    var k' := k.(lastChange := k.tick, index := NextSlot(plan, k.index));
    DispatchNames(plan, k', PidFromName(k'.procs, plan.names[k'.index]), gaveUp && !v.forgetOnChange);
    DispatchNames(plan, k, next, gaveUp);
  }

  lemma CheckProcessNames(plan: Plan, v: Variant, k: Kernel, p: Process)
    requires WellFormed(plan, k) && k.index != INVALID_IDX
    ensures SameNames(k, CheckProcess(plan, v, k, p))
  {
    hide SlotCheck;
    var age := NonNegative(k.tick - k.lastChange);
    if p.level == Device && p.yielded {
      var k' := k.(lastChange := k.tick - k.debt, debt := 0);
      SlotCheckNames(plan, v, k', NonNegative(k.debt), PidFromName(k.procs, plan.names[k.index]), false);
    } else if p.level == Sporadic && p.yielded && k.sporadic != [] {
      SlotCheckNames(plan, v, k.(sporadic := k.sporadic[1..] + [k.sporadic[0]]), age, k.current, true);
    } else {
      SlotCheckNames(plan, v, k, age, k.current, p.yielded);
    }
  }

  lemma CheckNames(plan: Plan, v: Variant, k: Kernel)
    requires WellFormed(plan, k)
    ensures SameNames(k, Check(plan, v, k))
  {
    hide SlotCheck, CheckProcess, Switch, Dispatch;
    var k1 := AfterRelease(v, k);
    var i := SlotOf(k1.procs, k1.current);
    if |k1.devices| > 0 {
      SwitchNames(k1.(debt := k1.debt + (k1.tick - k1.lastChange), lastChange := k1.tick), k1.devices[0]);
    }
    if k1.index == INVALID_IDX {
      var k2 := k1.(lastChange := k1.tick, index := 0);
      DispatchNames(plan, k2, PidFromName(k2.procs, plan.names[0]), false);
    } else {
      SlotCheckNames(plan, v, k1, NonNegative(k1.tick - k1.lastChange), INVALIDPID, false);
      if i < |k1.procs| {
        CheckProcessNames(plan, v, k1, k1.procs[i]);
      }
    }
  }

  lemma SameNamesOk(k: Kernel, k': Kernel)
    requires NamesOk(k) && SameButFlags(k.procs, k'.procs) && k'.names == k.names
    ensures NamesOk(k')
  {
    forall n
      ensures Taken(k.procs, n) <==> Taken(k'.procs, n)
    {
      assert forall i | 0 <= i < |k.procs| :: Uses(k.procs[i], n) <==> Uses(k'.procs[i], n);
    }
  }

  // ----- Creation and termination -----

  lemma CreateNamesOk(k: Kernel, level: Level, n: nat)
    requires NamesOk(k) && TableOk(k)
    ensures NamesOk(Create(k, level, n).0)
  {
    var i := SlotOf(k.procs, INVALIDPID);
    var k' := Create(k, level, n).0;
    if k' != k {
      forall m
        ensures m in k'.names <==> Taken(k'.procs, m)
      {
        if m in k.names {
          var j :| 0 <= j < |k.procs| && Uses(k.procs[j], m);
          assert k'.procs[j] == k.procs[j];
        }
        if m == n && UsesName(level) {
          assert Uses(k'.procs[i], m);
        }
      }
    }
  }

  /** Some process other than the running one uses a name whose bit shares a word with name n. */
  ghost predicate SharesWord(k: Kernel, n: nat) {
    exists i :: 0 <= i < |k.procs| && Live(k.procs[i]) && UsesName(k.procs[i].level)
                && k.procs[i].pid != k.current && k.procs[i].n / WORD == n / WORD
  }

  lemma NamesAfter(k: Kernel, procs: seq<Process>, i: nat)
    requires NamesOk(k) && TableOk(k) && i < |k.procs| && Live(k.procs[i])
    requires procs == k.procs[i := k.procs[i].(pid := INVALIDPID)]
    ensures forall m :: Taken(procs, m) <==> m in k.names && !Uses(k.procs[i], m)
    ensures forall a, b, m | 0 <= a < b < |procs| :: Uses(procs[a], m) ==> !Uses(procs[b], m)
  {
    forall m
      ensures Taken(procs, m) <==> m in k.names && !Uses(k.procs[i], m)
    {
      if m in k.names && !Uses(k.procs[i], m) {
        var j :| 0 <= j < |k.procs| && Uses(k.procs[j], m);
        assert procs[j] == k.procs[j];
      }
      if j :| 0 <= j < |procs| && Uses(procs[j], m) {
        assert k.procs[j] == procs[j];
        OnlyUser(k, i, j, m);
      }
    }
  }

  lemma OnlyUser(k: Kernel, i: nat, j: nat, m: nat)
    requires NamesOk(k) && i < |k.procs| && j < |k.procs| && i != j && Uses(k.procs[j], m)
    ensures !Uses(k.procs[i], m)
  {
  }

  /** Clearing the bit of n, or its whole word, takes away exactly n if and only if no other name in the word is set. */
  lemma UnregisterExactIff(v: Variant, names: set<nat>, n: nat)
    requires n in names
    ensures Unregister(v, names, n) == names - {n}
            <==> v.clearOneBit || !exists m :: m in names && m != n && m / WORD == n / WORD
  {
    if m :| m in names && m != n && m / WORD == n / WORD {
      assert v.clearOneBit || m !in Unregister(v, names, n);
      assert m in names - {n};
    }
  }

  /** Terminating keeps the registry exact if and only if one bit is cleared, or the cleared word holds no
      other process's name. Devices have no name to give up. */
  lemma TerminateNamesIff(plan: Plan, v: Variant, k: Kernel)
    requires Inv(plan, k) && NamesOk(k) && k.current != INVALIDPID && k.current != plan.idle
    ensures Terminate(v, k).Running?
    ensures NamesOk(Terminate(v, k).k) <==>
            v.clearOneBit || DeviceRuns(k) || !SharesWord(k, k.procs[SlotOf(k.procs, k.current)].n)
  {
    hide SporadicOk, DevicesOk, IdleOk, PlanOk, FlagsOk, CurrentOk;
    TerminateOk(plan, v, k);
    SlotOfLive(k.procs, k.current);
    var i := SlotOf(k.procs, k.current);
    var k' := Terminate(v, k).k;
    NamesAfter(k, k'.procs, i);
    LevelUnique(k, i);
    if k.procs[i].level != Device {
      assert Uses(k.procs[i], k.procs[i].n);
      WordIff(k, i);
      UnregisterExactIff(v, k.names, k.procs[i].n);
    }
  }

  ghost predicate DeviceRuns(k: Kernel)
  {
    LiveAt(k.procs, k.current, Device)
  }

  /** A word holds a name of another process exactly if clearing it loses a registered name. */
  lemma WordIff(k: Kernel, i: nat)
    requires NamesOk(k) && TableOk(k) && i < |k.procs| && k.procs[i].pid == k.current && Uses(k.procs[i], k.procs[i].n)
    ensures SharesWord(k, k.procs[i].n) <==>
            exists m :: m in k.names && m != k.procs[i].n && m / WORD == k.procs[i].n / WORD
  {
    var n := k.procs[i].n;
    if SharesWord(k, n) {
      var j :| 0 <= j < |k.procs| && Live(k.procs[j]) && UsesName(k.procs[j].level)
               && k.procs[j].pid != k.current && k.procs[j].n / WORD == n / WORD;
      assert Uses(k.procs[j], k.procs[j].n);
      assert k.procs[j].n in k.names && k.procs[j].n != n;
    }
    if m :| m in k.names && m != n && m / WORD == n / WORD {
      var j :| 0 <= j < |k.procs| && Uses(k.procs[j], m);
      assert j != i;
    }
  }

  // ----- Whole runs -----

  /** The termination, if e is one, clears no name but its own. */
  ghost predicate ClearsOwnName(v: Variant, k: Kernel, e: Event) {
    v.clearOneBit || e != Terminates || DeviceRuns(k)
    || var i := SlotOf(k.procs, k.current); i < |k.procs| && !SharesWord(k, k.procs[i].n)
  }

  lemma YieldNames(plan: Plan, v: Variant, k: Kernel)
    requires Inv(plan, k) && k.current != INVALIDPID
    ensures SameNames(k, Yield(plan, v, k))
  {
    hide Check;
    MarkYieldedOk(plan, k);
    CheckNames(plan, v, MarkYielded(k).k);
  }

  lemma StepNamesOk(plan: Plan, v: Variant, k: Kernel, e: Event, k': Kernel)
    requires Inv(plan, k) && NamesOk(k) && Follows(plan, v, k, e, k') && ClearsOwnName(v, k, e)
    ensures NamesOk(k')
  {
    hide Check, Yield, Terminate, Create, NamesOk, SharesWord;
    match e
    case Timer =>
      CheckNames(plan, v, k.(tick := k.tick + 1));
      SameNamesOk(k, k');
    case Yields =>
      YieldNames(plan, v, k);
      SameNamesOk(k, k');
    case Terminates => TerminateNamesIff(plan, v, k);
    case Creates(level, n) => CreateNamesOk(k, level, n);
  }

  lemma BootNamesOk(plan: Plan)
    ensures NamesOk(Boot(plan))
  {
  }

  /** In every state of a run the registry is exact and no name is used twice: always if one bit is
      cleared, and with the code as written as long as no termination clears a word it shares. */
  lemma {:induction false} NamesKept(plan: Plan, v: Variant, ks: seq<Kernel>, es: seq<Event>, i: nat)
    requires |ks| == |es| + 1 && Trace(plan, v, ks, es) && Inv(plan, ks[0]) && NamesOk(ks[0]) && i < |ks|
    requires forall j | 0 <= j < |es| :: ClearsOwnName(v, ks[j], es[j])
    ensures NamesOk(ks[i])
  {
    hide Step, Allowed, Inv, NamesOk, ClearsOwnName;
    if i > 0 {
      NamesKept(plan, v, ks, es, i - 1);
      TraceKeepsInv(plan, v, ks, es, i - 1);
      assert Follows(plan, v, ks[i - 1], es[i - 1], ks[i - 1 + 1]);
      StepNamesOk(plan, v, ks[i - 1], es[i - 1], ks[i]);
    }
  }

  // ----- The lookup by name -----

  /** pid_from_name answers with the process that uses name n, or with INVALIDPID if there is none. */
  ghost predicate Resolves(k: Kernel, n: nat) {
    && (forall i | 0 <= i < |k.procs| && Uses(k.procs[i], n) :: PidFromName(k.procs, n) == k.procs[i].pid)
    && ((forall i | 0 <= i < |k.procs| :: !Uses(k.procs[i], n)) ==> PidFromName(k.procs, n) == INVALIDPID)
  }

  /** A live device or idle process whose number is n, but not as a name, comes only after the user of n. */
  ghost predicate NotShadowed(k: Kernel, n: nat) {
    forall j | 0 <= j < |k.procs| && Live(k.procs[j]) && k.procs[j].n == n && !UsesName(k.procs[j].level) ::
      exists i :: 0 <= i < j && Uses(k.procs[i], n)
  }

  /** The lookup ignores the level. It is right exactly if no process that carries n as something else
      than a name, namely idle or a device of rate n, comes before the user of the name in the table. */
  lemma ResolvesIff(k: Kernel, n: nat)
    requires TableOk(k) && NamesOk(k)
    ensures Resolves(k, n) <==> NotShadowed(k, n)
  {
    var r := NamedFrom(k.procs, n, 0);
    if NotShadowed(k, n) {
      UnshadowedFinds(k, n);
    } else {
      var j :| 0 <= j < |k.procs| && Live(k.procs[j]) && k.procs[j].n == n && !UsesName(k.procs[j].level)
               && forall i | 0 <= i < j :: !Uses(k.procs[i], n);
      assert r <= j && !UsesName(k.procs[r].level);
      assert PidFromName(k.procs, n) == k.procs[r].pid != INVALIDPID;
      forall i | 0 <= i < |k.procs| && Uses(k.procs[i], n)
        ensures k.procs[i].pid != k.procs[r].pid
      {
        assert i != r;
      }
    }
  }

  lemma UnshadowedFinds(k: Kernel, n: nat)
    requires TableOk(k) && NamesOk(k) && NotShadowed(k, n)
    ensures Resolves(k, n)
  {
    var r := NamedFrom(k.procs, n, 0);
    if r < |k.procs| {
      assert forall i | 0 <= i < r :: !Uses(k.procs[i], n);
      assert Uses(k.procs[r], n);
    }
    forall i | 0 <= i < |k.procs| && Uses(k.procs[i], n)
      ensures i == r
    {
      assert r <= i;
    }
  }

  /** Under the premise on the names of the plan, the lookup of each of them is right. */
  lemma PidFromNameFinds(plan: Plan, k: Kernel, name: int)
    requires Inv(plan, k) && NamesOk(k) && name in plan.names && name != IDLE
    ensures name >= 0 ==> NotShadowed(k, name) && Resolves(k, name)
    ensures PidFromName(k.procs, name) != INVALIDPID <==>
            name >= 0 && exists i :: 0 <= i < |k.procs| && Uses(k.procs[i], name)
  {
    if name >= 0 {
      NoShadow(plan, k, name);
      ResolvesIff(k, name);
    }
  }

  lemma NoShadow(plan: Plan, k: Kernel, n: nat)
    requires PlanOk(plan, k) && n in plan.names
    ensures NotShadowed(k, n)
  {
  }

  // ----- Where the written code goes wrong -----

  const TWO_NAMES: Plan := Plan([1, 2], [5, 5], 1)

  /** Two periodic processes, pid 2 with name 1, which is running, and pid 3 with name 2. */
  const TWO_RUNNING: Kernel := Kernel(
    seq(MAXPROCESS, _ => Process(INVALIDPID, IdlePriority, 0, false))
      [0 := Process(1, IdlePriority, 0, false)]
      [1 := Process(2, Periodic, 1, false)]
      [2 := Process(3, Periodic, 2, false)],
    [], [], 0, 1, 0, 2, 4, {1, 2}, 1, 1)

  lemma TwoRunningNames()
    ensures NamesOk(TWO_RUNNING)
  {
    var k := TWO_RUNNING;
    assert Uses(k.procs[1], 1) && Uses(k.procs[2], 2);
  }

  lemma TwoRunningOk()
    ensures Inv(TWO_NAMES, TWO_RUNNING) && NamesOk(TWO_RUNNING)
  {
    hide NamesOk;
    TwoRunningNames();
    var k := TWO_RUNNING;
    assert k.procs[0].pid == 1 && k.procs[1].pid == 2;
    LevelUnique(k, 1);
  }

  /** The process of name 1 terminates and clears the bit of name 2 as well, so that a second process
      of name 2 can be created. */
  lemma WrittenTerminateLosesName()
    ensures Inv(TWO_NAMES, TWO_RUNNING) && NamesOk(TWO_RUNNING) && Terminate(AS_WRITTEN, TWO_RUNNING).Running?
    ensures var k := Terminate(AS_WRITTEN, TWO_RUNNING).k;
            k.names == {} && Create(k, Periodic, 2).1 != INVALIDPID && !NamesOk(Create(k, Periodic, 2).0)
  {
    TwoRunningOk();
    var k := TWO_RUNNING;
    assert SlotFrom(k.procs, 2, 1) == 1;
    var k1 := Terminate(AS_WRITTEN, k).k;
    assert k1.names == {};
    assert SlotFrom(k1.procs, INVALIDPID, 1) == 1;
    var k2 := Create(k1, Periodic, 2).0;
    assert Uses(k2.procs[1], 2) && Uses(k2.procs[2], 2);
  }

  /** Idle carries the number 0 in the first slot, so that name 0 always resolves to it. */
  lemma NameZeroIsIdle(plan: Plan)
    requires WellFormedPlan(plan)
    ensures PidFromName(Boot(plan).procs, 0) == plan.idle
  {
  }
}
