/** The scheduler of the kernel as functions on its state. Ring buffers appear as sequences, front first. */
module Scheduler {
  import opened Words

  const MAXPROCESS: nat := 16
  const INVALIDPID: nat := 0
  const INVALID_IDX: nat := 999999999
  const IDLE: int := -1

  /** Bits of the name registry; a name is the number of one of them. */
  const NAMES: nat := WORD * (MAXPROCESS / 8 + 1)

  datatype Level = Device | Periodic | Sporadic | IdlePriority

  /** A slot of the process table; it is free if its pid is INVALIDPID. */
  datatype Process = Process(pid: nat, level: Level, n: nat, yielded: bool)

  /** The cyclic plan: the arrays PPP and PPPMax, and the pid of the idle process. */
  datatype Plan = Plan(names: seq<int>, maxes: seq<int>, idle: nat)

  datatype Kernel = Kernel(
    procs: seq<Process>,
    sporadic: seq<nat>,
    devices: seq<nat>,
    index: nat,
    lastChange: int,
    debt: int,
    current: nat,
    nextPid: nat,
    names: set<nat>,
    tick: int,
    lastReleased: int)

  /** Which repairs are in force. The code as written has none of them.
      - oncePerTick: devices are released once per tick, not whenever the slot has an age;
      - forgetOnChange: a change of slot disregards the yielded flag of the process running so far;
      - clearOneBit: unregistering a name clears that bit only, not the whole word. */
  datatype Variant = Variant(oncePerTick: bool, forgetOnChange: bool, clearOneBit: bool)

  const AS_WRITTEN: Variant := Variant(false, false, false)

  datatype Reason = DivideByZero | QueueFull | AssertFailed | UnknownPid

  datatype Outcome = Running(k: Kernel) | Aborted(reason: Reason)

  // ----- Table lookups -----

  predicate Live(p: Process) {
    p.pid != INVALIDPID
  }

  /** First slot holding pid from slot i on, or |procs|. */
  function SlotFrom(procs: seq<Process>, pid: nat, i: nat): (r: nat)
    requires i <= |procs|
    ensures i <= r <= |procs|
    ensures r < |procs| ==> procs[r].pid == pid
    ensures forall j | i <= j < r :: procs[j].pid != pid
    decreases |procs| - i
  {
    if i == |procs| || procs[i].pid == pid then i else SlotFrom(procs, pid, i + 1)
  }

  function SlotOf(procs: seq<Process>, pid: nat): (r: nat)
    ensures r <= |procs|
    ensures r < |procs| ==> procs[r].pid == pid
    ensures forall j | 0 <= j < r :: procs[j].pid != pid
  {
    SlotFrom(procs, pid, 0)
  }

  /** First live slot of name n from slot i on, or |procs|. */
  function NamedFrom(procs: seq<Process>, n: int, i: nat): (r: nat)
    requires i <= |procs|
    ensures i <= r <= |procs|
    ensures r < |procs| ==> Live(procs[r]) && procs[r].n == n
    ensures forall j | i <= j < r :: !(Live(procs[j]) && procs[j].n == n)
    decreases |procs| - i
  {
    if i == |procs| || (Live(procs[i]) && procs[i].n == n) then i else NamedFrom(procs, n, i + 1)
  }

  /** pid_from_name */
  function PidFromName(procs: seq<Process>, n: int): nat {
    if n == IDLE then INVALIDPID
    else
      var i := NamedFrom(procs, n, 0);
      if i == |procs| then INVALIDPID else procs[i].pid
  }

  /** Pids of the devices that are due at tick, in the order of their slots, from slot i on. */
  function DueFrom(procs: seq<Process>, tick: int, i: nat): seq<nat>
    requires i <= |procs|
    decreases |procs| - i
  {
    if i == |procs| then []
    else (if IsDue(procs[i], tick) then [procs[i].pid] else []) + DueFrom(procs, tick, i + 1)
  }

  /** Whether the device p is due at tick; the rate has been found to be different from 0. */
  predicate IsDue(p: Process, tick: int) {
    Live(p) && p.level == Device && p.n != 0 && tick % p.n == 0
  }

  /** No live device has the rate 0, by which the release loop would divide. */
  predicate RatesOk(procs: seq<Process>) {
    forall i | 0 <= i < |procs| :: Live(procs[i]) && procs[i].level == Device ==> procs[i].n != 0
  }

  // ----- Switching -----

  /** switch_process: the process that loses the processor also loses its yielded flag. */
  function Switch(k: Kernel, pid: nat): Outcome {
    if k.current == pid || pid == INVALIDPID then Running(k)
    else
      var procs := Unflag(k.procs, k.current);
      if k.current != INVALIDPID && SlotOf(k.procs, k.current) == |k.procs| then Aborted(UnknownPid)
      else if SlotOf(procs, pid) == |procs| then Aborted(UnknownPid)
      else Running(k.(procs := procs, current := pid))
  }

  function Unflag(procs: seq<Process>, pid: nat): (r: seq<Process>)
    ensures |r| == |procs|
  {
    var i := SlotOf(procs, pid);
    if pid == INVALIDPID || i == |procs| then procs else procs[i := procs[i].(yielded := false)]
  }

  // ----- check_schedule -----

  /** Whether this check releases devices. */
  predicate Releases(v: Variant, k: Kernel) {
    if v.oncePerTick then k.tick != k.lastReleased else k.tick != k.lastChange
  }

  /** The pids that this check enqueues on the device ring. */
  function Released(v: Variant, k: Kernel): seq<nat> {
    if Releases(v, k) then DueFrom(k.procs, k.tick, 0) else []
  }

  function AfterRelease(v: Variant, k: Kernel): Kernel {
    k.(devices := k.devices + Released(v, k), lastReleased := if Releases(v, k) then k.tick else k.lastReleased)
  }

  predicate WellFormedPlan(plan: Plan) {
    && 0 < |plan.names| == |plan.maxes| < INVALID_IDX
    && plan.idle != INVALIDPID
    && forall i | 0 <= i < |plan.maxes| :: 0 <= plan.maxes[i]
  }

  predicate WellFormed(plan: Plan, k: Kernel) {
    && WellFormedPlan(plan)
    && |k.procs| == MAXPROCESS
    && (k.index < |plan.names| || k.index == INVALID_IDX)
  }

  /** The end of check_schedule: run next, or whoever uses the idle time if there is no
      such process or the current one gave its time up. */
  function Dispatch(plan: Plan, k: Kernel, next: nat, gaveUp: bool): Outcome {
    if next == INVALIDPID || gaveUp then
      if |k.sporadic| == 0 then Switch(k, plan.idle) else Switch(k, k.sporadic[0])
    else Switch(k, next)
  }

  function NextSlot(plan: Plan, i: nat): (j: nat)
    requires |plan.names| > 0
    ensures j < |plan.names|
    ensures i < |plan.names| ==> j == if i + 1 < |plan.names| then i + 1 else 0
  {
    (i + 1) % |plan.names|
  }

  /** PERIODIC_CHECK: advance to the next slot if the time of the current one is up. */
  function SlotCheck(plan: Plan, v: Variant, k: Kernel, age: int, next: nat, gaveUp: bool): Outcome
    requires WellFormed(plan, k) && k.index != INVALID_IDX
  {
    if plan.maxes[k.index] < age then
      var k' := k.(lastChange := k.tick, index := NextSlot(plan, k.index));
      Dispatch(plan, k', PidFromName(k'.procs, plan.names[k'.index]), gaveUp && !v.forgetOnChange)
    else Dispatch(plan, k, next, gaveUp)
  }

  function NonNegative(delta: int): int {
    if delta < 0 then 1 else delta
  }

  /** The case distinction on the level of the running process p. */
  function CheckProcess(plan: Plan, v: Variant, k: Kernel, p: Process): Outcome
    requires WellFormed(plan, k) && k.index != INVALID_IDX
  {
    var age := NonNegative(k.tick - k.lastChange);
    match p.level
    case Device =>
      if p.yielded then
        var k' := k.(lastChange := k.tick - k.debt, debt := 0);
        SlotCheck(plan, v, k', NonNegative(k.debt), PidFromName(k.procs, plan.names[k.index]), false)
      else Running(k)
    case Sporadic =>
      if p.yielded then
        if |k.sporadic| == 0 then Aborted(AssertFailed)
        else SlotCheck(plan, v, k.(sporadic := k.sporadic[1..] + [k.sporadic[0]]), age, k.current, true)
      else SlotCheck(plan, v, k, age, k.current, false)
    case _ => SlotCheck(plan, v, k, age, k.current, p.yielded)
  }

  /** check_schedule from the point where no device has to be dispatched. */
  function CheckPlan(plan: Plan, v: Variant, k: Kernel): Outcome
    requires WellFormed(plan, k)
  {
    if k.index == INVALID_IDX then
      var k' := k.(lastChange := k.tick, index := 0);
      Dispatch(plan, k', PidFromName(k'.procs, plan.names[0]), false)
    else if k.current == INVALIDPID then
      SlotCheck(plan, v, k, NonNegative(k.tick - k.lastChange), INVALIDPID, false)
    else
      var i := SlotOf(k.procs, k.current);
      if i == |k.procs| then Aborted(UnknownPid) else CheckProcess(plan, v, k, k.procs[i])
  }

  /** check_schedule once the devices due have been enqueued: the front of the device ring comes first. */
  function CheckQueued(plan: Plan, v: Variant, k: Kernel): Outcome
    requires WellFormed(plan, k)
  {
    if |k.devices| > 0 && k.devices[0] != k.current then
      Switch(k.(debt := k.debt + (k.tick - k.lastChange), lastChange := k.tick), k.devices[0])
    else CheckPlan(plan, v, k)
  }

  /** check_schedule. The release loop fails on a rate of 0, or on a device for which the ring has no room. */
  function Check(plan: Plan, v: Variant, k: Kernel): Outcome
    requires WellFormed(plan, k)
  {
    var k' := AfterRelease(v, k);
    if Releases(v, k) && !RatesOk(k.procs) then Aborted(DivideByZero)
    else if |k'.devices| > MAXPROCESS then Aborted(QueueFull)
    else CheckQueued(plan, v, k')
  }

  // ----- Kernel calls -----

  /** The timer: the tick rises by one and the schedule is checked. */
  function Tick(plan: Plan, v: Variant, k: Kernel): Outcome
    requires WellFormed(plan, k)
  {
    Check(plan, v, k.(tick := k.tick + 1))
  }

  /** OS_Yield up to the software interrupt: the flag is set and a device leaves its ring. */
  function MarkYielded(k: Kernel): Outcome {
    var i := SlotOf(k.procs, k.current);
    if k.current == INVALIDPID || i == |k.procs| then Aborted(UnknownPid)
    else
      var k' := k.(procs := k.procs[i := k.procs[i].(yielded := true)]);
      if k.procs[i].level != Device then Running(k')
      else if |k.devices| == 0 then Aborted(AssertFailed)
      else Running(k'.(devices := k.devices[1..]))
  }

  /** OS_Yield and the check it triggers. A process whose flag is still set returns at once. */
  function Yield(plan: Plan, v: Variant, k: Kernel): Outcome
    requires WellFormed(plan, k)
  {
    var i := SlotOf(k.procs, k.current);
    if i < |k.procs| && k.current != INVALIDPID && k.procs[i].yielded then Running(k)
    else
      match MarkYielded(k)
      case Aborted(r) => Aborted(r)
      case Running(k') => Check(plan, v, k')
  }

  predicate UsesName(level: Level) {
    level == Periodic || level == Sporadic
  }

  /** OS_Create. The second component is its result. */
  function Create(k: Kernel, level: Level, n: nat): (Kernel, nat) {
    var i := SlotOf(k.procs, INVALIDPID);
    if i == |k.procs| || (UsesName(level) && n in k.names) then (k, INVALIDPID)
    else
      var k' := k.(
        procs := k.procs[i := Process(k.nextPid, level, n, false)],
        nextPid := k.nextPid + 1,
        names := if UsesName(level) then k.names + {n} else k.names);
      if level != Sporadic then (k', k.nextPid)
      else if |k.sporadic| >= MAXPROCESS then (k', INVALIDPID)
      else (k'.(sporadic := k.sporadic + [k.nextPid]), k.nextPid)
  }

  /** unregister_name */
  function Unregister(v: Variant, names: set<nat>, n: nat): set<nat> {
    if n !in names then names
    else if v.clearOneBit then names - {n}
    else set m | m in names && m / WORD != n / WORD
  }

  /** OS_Terminate */
  function Terminate(v: Variant, k: Kernel): Outcome {
    var i := SlotOf(k.procs, k.current);
    if k.current == INVALIDPID || i == |k.procs| then Aborted(UnknownPid)
    else
      var p := k.procs[i];
      var k' := k.(procs := k.procs[i := p.(pid := INVALIDPID)], current := INVALIDPID);
      match p.level
      case Device =>
        if |k.devices| == 0 || k.devices[0] != p.pid then Aborted(AssertFailed)
        else Running(k'.(devices := k.devices[1..]))
      case Sporadic =>
        if |k.sporadic| == 0 || k.sporadic[0] != p.pid then Aborted(AssertFailed)
        else Running(k'.(sporadic := k.sporadic[1..], names := Unregister(v, k.names, p.n)))
      case Periodic =>
        Running(k'.(names := Unregister(v, k.names, p.n)))
      case IdlePriority => Aborted(AssertFailed)
  }

  predicate NamesFit(procs: seq<Process>) {
    forall i | 0 <= i < |procs| :: Live(procs[i]) && UsesName(procs[i].level) ==> procs[i].n < NAMES
  }

  /** What OS_Terminate takes for granted: the ring of the running process is not empty, and its name
      is one of the registry. */
  predicate MayTerminate(k: Kernel) {
    k.current != INVALIDPID ==>
      forall i | 0 <= i < |k.procs| && k.procs[i].pid == k.current ::
        && (k.procs[i].level == Device ==> k.devices != [])
        && (k.procs[i].level == Sporadic ==> k.sporadic != [])
        && (UsesName(k.procs[i].level) ==> k.procs[i].n < NAMES)
  }

  // ----- Runs -----

  datatype Event = Timer | Yields | Terminates | Creates(level: Level, n: nat)

  function Step(plan: Plan, v: Variant, k: Kernel, e: Event): Outcome
    requires WellFormed(plan, k)
  {
    match e
    case Timer => Tick(plan, v, k)
    case Yields => Yield(plan, v, k)
    case Terminates => Terminate(v, k)
    case Creates(level, n) => Running(Create(k, level, n).0)
  }

  lemma SlotCheckWellFormed(plan: Plan, v: Variant, k: Kernel, age: int, next: nat, gaveUp: bool)
    requires WellFormed(plan, k) && k.index != INVALID_IDX && SlotCheck(plan, v, k, age, next, gaveUp).Running?
    ensures WellFormed(plan, SlotCheck(plan, v, k, age, next, gaveUp).k)
  {
  }

  lemma CheckWellFormed(plan: Plan, v: Variant, k: Kernel)
    requires WellFormed(plan, k) && Check(plan, v, k).Running?
    ensures WellFormed(plan, Check(plan, v, k).k)
  {
    var k' := AfterRelease(v, k);
    if CheckQueued(plan, v, k') == CheckPlan(plan, v, k') {
      CheckPlanWellFormed(plan, v, k');
    }
  }

  lemma CheckProcessWellFormed(plan: Plan, v: Variant, k: Kernel, p: Process)
    requires WellFormed(plan, k) && k.index != INVALID_IDX && CheckProcess(plan, v, k, p).Running?
    ensures WellFormed(plan, CheckProcess(plan, v, k, p).k)
  {
    var age := NonNegative(k.tick - k.lastChange);
    if p.level == Device && p.yielded {
      var k' := k.(lastChange := k.tick - k.debt, debt := 0);
      SlotCheckWellFormed(plan, v, k', NonNegative(k.debt), PidFromName(k.procs, plan.names[k.index]), false);
    } else if p.level == Sporadic && p.yielded {
      SlotCheckWellFormed(plan, v, k.(sporadic := k.sporadic[1..] + [k.sporadic[0]]), age, k.current, true);
    } else if p.level != Device {
      SlotCheckWellFormed(plan, v, k, age, k.current, p.yielded);
    }
  }

  lemma CheckPlanWellFormed(plan: Plan, v: Variant, k: Kernel)
    requires WellFormed(plan, k) && CheckPlan(plan, v, k).Running?
    ensures WellFormed(plan, CheckPlan(plan, v, k).k)
  {
    var i := SlotOf(k.procs, k.current);
    if k.index != INVALID_IDX && k.current == INVALIDPID {
      SlotCheckWellFormed(plan, v, k, NonNegative(k.tick - k.lastChange), INVALIDPID, false);
    } else if k.index != INVALID_IDX && i < |k.procs| {
      CheckProcessWellFormed(plan, v, k, k.procs[i]);
    }
  }

  lemma StepWellFormed(plan: Plan, v: Variant, k: Kernel, e: Event)
    requires WellFormed(plan, k) && Step(plan, v, k, e).Running?
    ensures WellFormed(plan, Step(plan, v, k, e).k)
  {
    match e
    case Timer => CheckWellFormed(plan, v, k.(tick := k.tick + 1));
    case Yields =>
      if MarkYielded(k).Running? && Step(plan, v, k, e) != Running(k) {
        CheckWellFormed(plan, v, MarkYielded(k).k);
      }
    case Terminates =>
    case Creates(level, n) =>
  }

  /** A whole run. */
  function Exec(plan: Plan, v: Variant, k: Kernel, es: seq<Event>): Outcome
    requires WellFormed(plan, k)
    decreases |es|
  {
    if es == [] then Running(k)
    else
      match Step(plan, v, k, es[0])
      case Aborted(r) => Aborted(r)
      case Running(k') =>
        StepWellFormed(plan, v, k, es[0]);
        Exec(plan, v, k', es[1..])
  }

  /** The state in which OS_Start waits for the first tick: only the idle process exists. */
  function Boot(plan: Plan): (k: Kernel) {
    var free := Process(INVALIDPID, IdlePriority, 0, false);
    Kernel(seq(MAXPROCESS, _ => free)[0 := Process(plan.idle, IdlePriority, 0, false)],
           [], [], INVALID_IDX, 0, 0, INVALIDPID, plan.idle + 1, {}, 0, 0)
  }
}
