/** Two runs from boot in which the written scheduler misses its intent. */
module SchedulerWitnesses {
  import opened Scheduler
  import opened SchedulerInvariant
  import opened SchedulerTimetable
  import opened SchedulerDevices

  /** A plan of one slot, named 5. */
  const FIVE: Plan := Plan([5], [9], 1)

  const FREE: Process := Process(INVALIDPID, IdlePriority, 0, false)

  /** The process table that begins with these slots; the others are free. */
  function Table(slots: seq<Process>): (procs: seq<Process>)
    requires |slots| <= MAXPROCESS
    ensures |procs| == MAXPROCESS
    ensures forall i | 0 <= i < |slots| :: procs[i] == slots[i]
    ensures forall i | |slots| <= i < MAXPROCESS :: procs[i] == FREE
  {
    slots + seq(MAXPROCESS - |slots|, _ => FREE)
  }

  function Pair(a: Process, b: Process): (procs: seq<Process>)
    ensures |procs| == MAXPROCESS
  {
    Table([Process(1, IdlePriority, 0, false), a, b])
  }

  lemma {:induction false} NobodyDue(procs: seq<Process>, tick: int, i: nat)
    requires i <= |procs| && forall j | i <= j < |procs| :: !IsDue(procs[j], tick)
    ensures DueFrom(procs, tick, i) == []
    decreases |procs| - i
  {
    if i < |procs| {
      NobodyDue(procs, tick, i + 1);
    }
  }

  /** The device in the third slot is the only one. */
  lemma DueInPair(a: Process, b: Process, tick: int)
    requires a.level != Device
    ensures DueFrom(Pair(a, b), tick, 0) == if IsDue(b, tick) then [b.pid] else []
  {
    var procs := Pair(a, b);
    NobodyDue(procs, tick, 3);
    assert DueFrom(procs, tick, 2) == if IsDue(b, tick) then [b.pid] else [];
    assert DueFrom(procs, tick, 1) == DueFrom(procs, tick, 2);
  }

  lemma SlotsOfPair(a: Process, b: Process)
    requires a.pid == 2 && b.pid == 3
    ensures SlotOf(Pair(a, b), 1) == 0 && SlotOf(Pair(a, b), 2) == 1 && SlotOf(Pair(a, b), 3) == 2
    ensures Unflag(Pair(a, b), 2) == Pair(a.(yielded := false), b)
    ensures Unflag(Pair(a, b), 3) == Pair(a, b.(yielded := false))
  {
    var procs := Pair(a, b);
    assert procs[0].pid == 1 && procs[1].pid == 2 && procs[2].pid == 3;
  }

  lemma NameInPair(a: Process, b: Process, n: int)
    requires a.pid == 2 && b.pid == 3 && n > 0 && a.n != b.n
    ensures PidFromName(Pair(a, b), n) == if n == a.n then 2 else if n == b.n then 3 else INVALIDPID
  {
    var procs := Pair(a, b);
    assert procs[0].n == 0 && procs[1] == a && procs[2] == b;
  }

  lemma NextFree(slots: seq<Process>, p: Process)
    requires |slots| < MAXPROCESS && forall i | 0 <= i < |slots| :: Live(slots[i])
    ensures SlotOf(Table(slots), INVALIDPID) == |slots|
    ensures Table(slots)[|slots| := p] == Table(slots + [p])
  {
    var procs := Table(slots);
    assert procs[|slots|] == FREE;
    forall i | 0 <= i < MAXPROCESS
      ensures procs[|slots| := p][i] == Table(slots + [p])[i]
    {
      if i < |slots| {
        assert (slots + [p])[i] == slots[i];
      }
    }
  }

  /** Two processes are created before the first tick. */
  lemma TwoCreated(plan: Plan, v: Variant, p: Process, q: Process)
    requires WellFormedPlan(plan) && plan.idle == 1 && !p.yielded && !q.yielded
    requires p.pid == 2 && q.pid == 3 && p.n != q.n && p.n < NAMES && q.n < NAMES
    requires p.level != IdlePriority && UsesName(p.level) && q.level != IdlePriority && q.level != Sporadic
    requires q.level == Device ==> q.n >= 1
    requires forall r | r == p || r == q :: r.level != Periodic ==> r.n !in plan.names
    ensures var k0 := Boot(plan);
            var k1 := Create(k0, p.level, p.n).0;
            var k2 := Create(k1, q.level, q.n).0;
            && Follows(plan, v, k0, Creates(p.level, p.n), k1)
            && Follows(plan, v, k1, Creates(q.level, q.n), k2)
            && k2 == Kernel(Pair(p, q), if p.level == Sporadic then [2] else [], [], INVALID_IDX, 0, 0, INVALIDPID, 4,
                            if UsesName(q.level) then {p.n, q.n} else {p.n}, 0, 0)
  {
    var idle := Process(1, IdlePriority, 0, false);
    assert Boot(plan).procs == Table([idle]);
    NextFree([idle], p);
    NextFree([idle, p], q);
    assert [idle] + [p] == [idle, p] && [idle, p] + [q] == [idle, p, q];
  }

  // ----- A new slot whose process does not run -----

  const SLOTS: Plan := Plan([1, 2], [1, 5], 1)

  /** A sporadic process, pid 2, and the periodic process of the second slot, pid 3. */
  function Denied(flagged: bool, index: nat, lastChange: int, current: nat, tick: int): Kernel {
    Kernel(Pair(Process(2, Sporadic, 3, flagged), Process(3, Periodic, 2, false)),
           [2], [], index, lastChange, 0, current, 4, {3, 2}, tick, tick)
  }

  lemma NobodyReleased(flagged: bool, index: nat, lastChange: int, current: nat, tick: int, released: int)
    ensures var k := Denied(flagged, index, lastChange, current, tick).(lastReleased := released);
            AfterRelease(AS_WRITTEN, k) == k.(lastReleased := if tick != lastChange then tick else released)
            && RatesOk(k.procs)
  {
    DueInPair(Process(2, Sporadic, 3, flagged), Process(3, Periodic, 2, false), tick);
  }

  /** The first tick finds no process of name 1, so that the sporadic process uses the slot. */
  lemma DeniedLaunch()
    ensures Follows(SLOTS, AS_WRITTEN, Denied(false, INVALID_IDX, 0, INVALIDPID, 0), Timer, Denied(false, 0, 1, 2, 1))
  {
    NobodyReleased(false, INVALID_IDX, 0, INVALIDPID, 1, 0);
    SlotsOfPair(Process(2, Sporadic, 3, false), Process(3, Periodic, 2, false));
    NameInPair(Process(2, Sporadic, 3, false), Process(3, Periodic, 2, false), 1);
  }

  /** It yields, and gets the processor right back. */
  lemma DeniedYields()
    ensures Follows(SLOTS, AS_WRITTEN, Denied(false, 0, 1, 2, 1), Yields, Denied(true, 0, 1, 2, 1))
  {
    var k, k' := Denied(false, 0, 1, 2, 1), Denied(true, 0, 1, 2, 1);
    SlotsOfPair(Process(2, Sporadic, 3, false), Process(3, Periodic, 2, false));
    SlotsOfPair(Process(2, Sporadic, 3, true), Process(3, Periodic, 2, false));
    assert k.procs[1].level == Sporadic;
    assert k.procs[1 := k.procs[1].(yielded := true)] == k'.procs;
    NobodyReleased(true, 0, 1, 2, 1, 1);
    assert k'.procs[1].yielded;
    assert [2][1..] + [2] == [2];
  }

  /** The next tick changes nothing but the clock. */
  lemma DeniedTick()
    ensures Follows(SLOTS, AS_WRITTEN, Denied(true, 0, 1, 2, 1), Timer, Denied(true, 0, 1, 2, 2))
  {
    NobodyReleased(true, 0, 1, 2, 2, 1);
    SlotsOfPair(Process(2, Sporadic, 3, true), Process(3, Periodic, 2, false));
    assert [2][1..] + [2] == [2];
  }

  /** The third tick begins the second slot, but the flag keeps its process away. */
  lemma DeniedAdvance()
    ensures Follows(SLOTS, AS_WRITTEN, Denied(true, 0, 1, 2, 2), Timer, Denied(true, 1, 3, 2, 3))
  {
    NobodyReleased(true, 0, 1, 2, 3, 2);
    SlotsOfPair(Process(2, Sporadic, 3, true), Process(3, Periodic, 2, false));
    assert [2][1..] + [2] == [2];
  }

  lemma DeniedSetUp()
    ensures var k1 := Create(Boot(SLOTS), Sporadic, 3).0;
            && Follows(SLOTS, AS_WRITTEN, Boot(SLOTS), Creates(Sporadic, 3), k1)
            && Follows(SLOTS, AS_WRITTEN, k1, Creates(Periodic, 2), Denied(false, INVALID_IDX, 0, INVALIDPID, 0))
  {
    hide Follows, Create;
    TwoCreated(SLOTS, AS_WRITTEN, Process(2, Sporadic, 3, false), Process(3, Periodic, 2, false));
  }

  lemma DeniedMeaning()
    ensures var k := Denied(true, 1, 3, 2, 3);
            k.index == 1 && PidFromName(k.procs, SLOTS.names[1]) == 3 && k.current == 2
    ensures Denied(true, 0, 1, 2, 2).index == 0
  {
    NameInPair(Process(2, Sporadic, 3, true), Process(3, Periodic, 2, false), 2);
  }

  /** From boot: a sporadic process and the periodic process of slot 1 are created, the first tick launches
      slot 0, the sporadic process yields, and when slot 1 begins its process does not run. */
  lemma NewSlotDenied() returns (ks: seq<Kernel>)
    ensures |ks| == 7 && ks[0] == Boot(SLOTS)
    ensures Trace(SLOTS, AS_WRITTEN, ks, [Creates(Sporadic, 3), Creates(Periodic, 2), Timer, Yields, Timer, Timer])
    ensures ks[6].index == 1 != ks[5].index && PidFromName(ks[6].procs, SLOTS.names[1]) == 3 && ks[6].current == 2
  {
    hide Follows, Boot, Create, Denied, PidFromName;
    DeniedSetUp();
    var k0 := Boot(SLOTS);
    var k1 := Create(k0, Sporadic, 3).0;
    var k2 := Denied(false, INVALID_IDX, 0, INVALIDPID, 0);
    DeniedLaunch();
    DeniedYields();
    DeniedTick();
    DeniedAdvance();
    DeniedMeaning();
    var k3, k4 := Denied(false, 0, 1, 2, 1), Denied(true, 0, 1, 2, 1);
    var k5, k6 := Denied(true, 0, 1, 2, 2), Denied(true, 1, 3, 2, 3);
    ks := [k0, k1, k2, k3, k4, k5, k6];
  }

  /** The flagged process is the only sporadic one after its check, but not for ever: it goes on running and
      may create another. */
  lemma FlaggedNotSole()
    ensures var k := Denied(true, 0, 1, 2, 1);
            var k' := Create(k, Sporadic, 4).0;
            && Follows(SLOTS, AS_WRITTEN, k, Creates(Sporadic, 4), k')
            && Flagged(k'.procs, k'.current) && k'.current == 2 && k'.sporadic == [2, 4]
  {
    var a, b := Process(2, Sporadic, 3, true), Process(3, Periodic, 2, false);
    var idle := Process(1, IdlePriority, 0, false);
    NextFree([idle, a, b], Process(4, Sporadic, 4, false));
    assert [idle, a, b][1] == a;
    assert Create(Denied(true, 0, 1, 2, 1), Sporadic, 4).0.procs[1] == a;
  }

  // ----- A device that is released twice in one tick -----

  const ONE_SLOT: Plan := Plan([1], [9], 1)

  /** A periodic process, pid 2, and a device of rate 2, pid 3. */
  function Twice(p: bool, d: bool, devices: seq<nat>, index: nat, lastChange: int, debt: int,
        current: nat, tick: int): Kernel
  {
    Kernel(Pair(Process(2, Periodic, 1, p), Process(3, Device, 2, d)),
           [], devices, index, lastChange, debt, current, 4, {1}, tick, tick)
  }

  lemma TwiceReleased(p: bool, d: bool, index: nat, lastChange: int, current: nat, tick: int, released: int)
    ensures var k := Twice(p, d, [], index, lastChange, 0, current, tick).(lastReleased := released);
            && RatesOk(k.procs)
            && Released(AS_WRITTEN, k) == if tick != lastChange && tick % 2 == 0 then [3] else []
  {
    DueInPair(Process(2, Periodic, 1, p), Process(3, Device, 2, d), tick);
  }

  lemma TwiceSlots(p: bool, d: bool)
    ensures var procs := Pair(Process(2, Periodic, 1, p), Process(3, Device, 2, d));
            && SlotOf(procs, 2) == 1 && SlotOf(procs, 3) == 2 && PidFromName(procs, 1) == 2
            && Unflag(procs, INVALIDPID) == procs
            && Unflag(procs, 2) == Pair(Process(2, Periodic, 1, false), Process(3, Device, 2, d))
            && Unflag(procs, 3) == Pair(Process(2, Periodic, 1, p), Process(3, Device, 2, false))
            && procs[1 := Process(2, Periodic, 1, true)] ==
               Pair(Process(2, Periodic, 1, true), Process(3, Device, 2, d))
            && procs[2 := Process(3, Device, 2, true)] == Pair(Process(2, Periodic, 1, p), Process(3, Device, 2, true))
            && procs[1] == Process(2, Periodic, 1, p) && procs[2] == Process(3, Device, 2, d)
  {
    SlotsOfPair(Process(2, Periodic, 1, p), Process(3, Device, 2, d));
    NameInPair(Process(2, Periodic, 1, p), Process(3, Device, 2, d), 1);
  }

  lemma TwiceLaunch()
    ensures Follows(ONE_SLOT, AS_WRITTEN, Twice(false, false, [], INVALID_IDX, 0, 0, INVALIDPID, 0), Timer,
                    Twice(false, false, [], 0, 1, 0, 2, 1))
  {
    hide Pair, DueFrom, SlotOf, PidFromName, Unflag;
    TwiceReleased(false, false, INVALID_IDX, 0, INVALIDPID, 1, 0);
    TwiceSlots(false, false);
  }

  /** The second tick releases the device, which interrupts the periodic process. */
  lemma TwiceTick()
    ensures Follows(ONE_SLOT, AS_WRITTEN, Twice(false, false, [], 0, 1, 0, 2, 1), Timer,
                    Twice(false, false, [3], 0, 2, 1, 3, 2))
    ensures StepReleases(AS_WRITTEN, Twice(false, false, [], 0, 1, 0, 2, 1), Timer) == [3]
  {
    hide Pair, DueFrom, SlotOf, PidFromName, Unflag;
    TwiceReleased(false, false, 0, 1, 2, 2, 1);
    TwiceSlots(false, false);
  }

  /** The device yields in the same tick, and the slot gets its age back. */
  lemma TwiceDeviceYields()
    ensures Follows(ONE_SLOT, AS_WRITTEN, Twice(false, false, [3], 0, 2, 1, 3, 2), Yields,
                    Twice(false, false, [], 0, 1, 0, 2, 2))
  {
    hide Pair, DueFrom, SlotOf, PidFromName, Unflag;
    TwiceSlots(false, false);
    TwiceSlots(false, true);
  }

  /** So does the periodic process, and the check of its yield releases the device again. */
  lemma TwiceYields()
    ensures Follows(ONE_SLOT, AS_WRITTEN, Twice(false, false, [], 0, 1, 0, 2, 2), Yields,
                    Twice(false, false, [3], 0, 2, 1, 3, 2))
    ensures StepReleases(AS_WRITTEN, Twice(false, false, [], 0, 1, 0, 2, 2), Yields) == [3]
  {
    hide Pair, DueFrom, SlotOf, PidFromName, Unflag;
    TwiceReleased(true, false, 0, 1, 2, 2, 2);
    TwiceSlots(false, false);
    TwiceSlots(true, false);
  }

  lemma TwiceSetUp()
    ensures var k1 := Create(Boot(ONE_SLOT), Periodic, 1).0;
            && Follows(ONE_SLOT, AS_WRITTEN, Boot(ONE_SLOT), Creates(Periodic, 1), k1)
            && Follows(ONE_SLOT, AS_WRITTEN, k1, Creates(Device, 2),
                       Twice(false, false, [], INVALID_IDX, 0, 0, INVALIDPID, 0))
  {
    hide Follows, Create;
    TwoCreated(ONE_SLOT, AS_WRITTEN, Process(2, Periodic, 1, false), Process(3, Device, 2, false));
  }

  lemma TwiceMeaning()
    ensures Twice(false, false, [3], 0, 2, 1, 3, 2).tick == Twice(false, false, [], 0, 1, 0, 2, 2).tick == 2
  {
  }

  /** From boot: a periodic process and a device of rate 2 are created, and after the second tick the device
      and the periodic process yield at once. The device has been enqueued twice in this tick. */
  lemma ReleasedTwice() returns (ks: seq<Kernel>)
    ensures |ks| == 7 && ks[0] == Boot(ONE_SLOT)
    ensures Trace(ONE_SLOT, AS_WRITTEN, ks, [Creates(Periodic, 1), Creates(Device, 2), Timer, Timer, Yields, Yields])
    ensures StepReleases(AS_WRITTEN, ks[3], Timer) == [3] && StepReleases(AS_WRITTEN, ks[5], Yields) == [3]
    ensures ks[4].tick == ks[5].tick == ks[6].tick == 2
  {
    hide Follows, Boot, Create, Twice, StepReleases;
    TwiceSetUp();
    var k0 := Boot(ONE_SLOT);
    var k1 := Create(k0, Periodic, 1).0;
    var k2 := Twice(false, false, [], INVALID_IDX, 0, 0, INVALIDPID, 0);
    TwiceLaunch();
    TwiceTick();
    TwiceDeviceYields();
    TwiceYields();
    TwiceMeaning();
    var k3, k5 := Twice(false, false, [], 0, 1, 0, 2, 1), Twice(false, false, [], 0, 1, 0, 2, 2);
    var k4 := Twice(false, false, [3], 0, 2, 1, 3, 2);
    ks := [k0, k1, k2, k3, k4, k5, k4];
  }

  // ----- A yield that does not move the process to the end of its ring -----

  /** Two sporadic processes, pids 2 and 4, and a device of rate 2, pid 3. */
  function Four(s: bool, d: bool): (procs: seq<Process>)
    ensures |procs| == MAXPROCESS
  {
    Table([Process(1, IdlePriority, 0, false), Process(2, Sporadic, 3, s), Process(3, Device, 2, d),
           Process(4, Sporadic, 4, false)])
  }

  function Kept(s: bool, d: bool, devices: seq<nat>, index: nat, lastChange: int, debt: int,
        current: nat, tick: int): Kernel
  {
    Kernel(Four(s, d), [2, 4], devices, index, lastChange, debt, current, 5, {3, 4}, tick, tick)
  }

  lemma KeptReleased(s: bool, index: nat, lastChange: int, current: nat, tick: int, released: int)
    ensures var k := Kept(s, false, [], index, lastChange, 0, current, tick).(lastReleased := released);
            && RatesOk(k.procs)
            && Released(AS_WRITTEN, k) == if tick != lastChange && tick % 2 == 0 then [3] else []
  {
    var procs := Four(s, false);
    assert procs[0].level == IdlePriority && procs[1].level == Sporadic && procs[3].level == Sporadic;
    NobodyDue(procs, tick, 3);
    assert DueFrom(procs, tick, 2) == if tick % 2 == 0 then [3] else [];
    assert DueFrom(procs, tick, 1) == DueFrom(procs, tick, 2);
  }

  lemma KeptSlots(s: bool, d: bool)
    ensures var procs := Four(s, d);
            && SlotOf(procs, 2) == 1 && SlotOf(procs, 3) == 2 && PidFromName(procs, 5) == INVALIDPID
            && Unflag(procs, INVALIDPID) == procs
            && Unflag(procs, 2) == Four(false, d) && Unflag(procs, 3) == Four(s, false)
            && procs[1 := Process(2, Sporadic, 3, true)] == Four(true, d)
            && procs[2 := Process(3, Device, 2, true)] == Four(s, true)
            && procs[1] == Process(2, Sporadic, 3, s) && procs[2] == Process(3, Device, 2, d)
  {
    var procs := Four(s, d);
    assert procs[0] == Process(1, IdlePriority, 0, false) && procs[3] == Process(4, Sporadic, 4, false);
    assert procs[1].pid == 2 && procs[2].pid == 3;
  }

  lemma KeptThird(k: Kernel)
    requires k == Kernel(Pair(Process(2, Sporadic, 3, false), Process(3, Device, 2, false)),
                         [2], [], INVALID_IDX, 0, 0, INVALIDPID, 4, {3}, 0, 0)
    ensures Follows(FIVE, AS_WRITTEN, k, Creates(Sporadic, 4), Kept(false, false, [], INVALID_IDX, 0, 0, INVALIDPID, 0))
  {
    var idle, p, q := Process(1, IdlePriority, 0, false), Process(2, Sporadic, 3, false), Process(3, Device, 2, false);
    var r := Process(4, Sporadic, 4, false);
    NextFree([idle, p, q], r);
    assert [idle, p, q] + [r] == [idle, p, q, r];
  }

  lemma KeptSetUp()
    ensures var k1 := Create(Boot(FIVE), Sporadic, 3).0;
            var k2 := Create(k1, Device, 2).0;
            && Follows(FIVE, AS_WRITTEN, Boot(FIVE), Creates(Sporadic, 3), k1)
            && Follows(FIVE, AS_WRITTEN, k1, Creates(Device, 2), k2)
            && Follows(FIVE, AS_WRITTEN, k2, Creates(Sporadic, 4),
                       Kept(false, false, [], INVALID_IDX, 0, 0, INVALIDPID, 0))
  {
    hide Follows, Create, Kept;
    TwoCreated(FIVE, AS_WRITTEN, Process(2, Sporadic, 3, false), Process(3, Device, 2, false));
    KeptThird(Create(Create(Boot(FIVE), Sporadic, 3).0, Device, 2).0);
  }

  lemma KeptLaunch()
    ensures Follows(FIVE, AS_WRITTEN, Kept(false, false, [], INVALID_IDX, 0, 0, INVALIDPID, 0), Timer,
                    Kept(false, false, [], 0, 1, 0, 2, 1))
  {
    hide Four, DueFrom, SlotOf, PidFromName, Unflag;
    KeptReleased(false, INVALID_IDX, 0, INVALIDPID, 1, 0);
    KeptSlots(false, false);
  }

  lemma KeptTick()
    ensures Follows(FIVE, AS_WRITTEN, Kept(false, false, [], 0, 1, 0, 2, 1), Timer,
                    Kept(false, false, [3], 0, 2, 1, 3, 2))
  {
    hide Four, DueFrom, SlotOf, PidFromName, Unflag;
    KeptReleased(false, 0, 1, 2, 2, 1);
    KeptSlots(false, false);
  }

  lemma KeptDeviceYields()
    ensures Follows(FIVE, AS_WRITTEN, Kept(false, false, [3], 0, 2, 1, 3, 2), Yields,
                    Kept(false, false, [], 0, 1, 0, 2, 2))
  {
    hide Four, DueFrom, SlotOf, PidFromName, Unflag;
    KeptSlots(false, false);
    KeptSlots(false, true);
  }

  lemma KeptYields()
    ensures Follows(FIVE, AS_WRITTEN, Kept(false, false, [], 0, 1, 0, 2, 2), Yields,
                    Kept(false, false, [3], 0, 2, 1, 3, 2))
  {
    hide Four, DueFrom, SlotOf, PidFromName, Unflag;
    KeptReleased(true, 0, 1, 2, 2, 2);
    KeptSlots(false, false);
    KeptSlots(true, false);
  }

  lemma KeptMeaning()
    ensures var k := Kept(false, false, [], 0, 1, 0, 2, 2);
            k.current == 2 && k.sporadic == [2, 4]
    ensures var k := Kept(false, false, [3], 0, 2, 1, 3, 2);
            k.current == 3 && k.sporadic == [2, 4] && !Flagged(k.procs, 2)
  {
    KeptSlots(false, false);
    assert forall i | 0 <= i < MAXPROCESS :: !Four(false, false)[i].yielded;
  }

  /** From boot: the sporadic process at the front yields, and the check of this yield dispatches a device. The
      process loses its flag and stays at the front, although another one waits behind it. */
  lemma YieldKeepsFront() returns (ks: seq<Kernel>)
    ensures |ks| == 8 && ks[0] == Boot(FIVE)
    ensures Trace(FIVE, AS_WRITTEN, ks,
                  [Creates(Sporadic, 3), Creates(Device, 2), Creates(Sporadic, 4), Timer, Timer, Yields, Yields])
    ensures ks[6].current == 2 && ks[6].sporadic == [2, 4]
    ensures ks[7].current == 3 && ks[7].sporadic == [2, 4] && !Flagged(ks[7].procs, 2)
  {
    hide Follows, Boot, Create, Kept, Flagged;
    KeptSetUp();
    KeptLaunch();
    KeptTick();
    KeptDeviceYields();
    KeptYields();
    KeptMeaning();
    var k0 := Boot(FIVE);
    var k1 := Create(k0, Sporadic, 3).0;
    var k2 := Create(k1, Device, 2).0;
    var k3, k4 := Kept(false, false, [], INVALID_IDX, 0, 0, INVALIDPID, 0), Kept(false, false, [], 0, 1, 0, 2, 1);
    var k5, k6 := Kept(false, false, [3], 0, 2, 1, 3, 2), Kept(false, false, [], 0, 1, 0, 2, 2);
    ks := [k0, k1, k2, k3, k4, k5, k6, k5];
  }

  // ----- A plan that is launched with a debt -----

  const REPAIRED: Variant := Variant(true, true, true)

  /** A periodic process, pid 2, and a device of rate 1, pid 3. */
  function Debt(d: bool, devices: seq<nat>, index: nat, lastChange: int, debt: int, current: nat, tick: int): Kernel {
    Kernel(Pair(Process(2, Periodic, 5, false), Process(3, Device, 1, d)),
           [], devices, index, lastChange, debt, current, 4, {5}, tick, tick)
  }

  lemma DebtReleased(index: nat, lastChange: int, debt: int, current: nat, tick: int)
    requires lastChange <= tick - 1
    ensures var k := Debt(false, [], index, lastChange, debt, current, tick - 1).(tick := tick);
            RatesOk(k.procs) && Released(REPAIRED, k) == [3]
  {
    DueInPair(Process(2, Periodic, 5, false), Process(3, Device, 1, false), tick);
  }

  lemma DebtSlots(d: bool)
    ensures var procs := Pair(Process(2, Periodic, 5, false), Process(3, Device, 1, d));
            && SlotOf(procs, 2) == 1 && SlotOf(procs, 3) == 2 && PidFromName(procs, 5) == 2
            && Unflag(procs, INVALIDPID) == procs && Unflag(procs, 2) == procs
            && Unflag(procs, 3) == Pair(Process(2, Periodic, 5, false), Process(3, Device, 1, false))
            && procs[2 := Process(3, Device, 1, true)] ==
               Pair(Process(2, Periodic, 5, false), Process(3, Device, 1, true))
            && procs[1] == Process(2, Periodic, 5, false) && procs[2] == Process(3, Device, 1, d)
  {
    SlotsOfPair(Process(2, Periodic, 5, false), Process(3, Device, 1, d));
    NameInPair(Process(2, Periodic, 5, false), Process(3, Device, 1, d), 5);
  }

  /** The first tick dispatches the device, before the plan is launched. */
  lemma DebtFirst()
    ensures Follows(FIVE, REPAIRED, Debt(false, [], INVALID_IDX, 0, 0, INVALIDPID, 0), Timer,
                    Debt(false, [3], INVALID_IDX, 1, 1, 3, 1))
  {
    hide Pair, DueFrom, SlotOf, PidFromName, Unflag;
    DebtReleased(INVALID_IDX, 0, 0, INVALIDPID, 1);
    DebtSlots(false);
  }

  /** Its yield launches the plan, and the debt stays. */
  lemma DebtLaunch()
    ensures Follows(FIVE, REPAIRED, Debt(false, [3], INVALID_IDX, 1, 1, 3, 1), Yields, Debt(false, [], 0, 1, 1, 2, 1))
  {
    hide Pair, DueFrom, SlotOf, PidFromName, Unflag;
    DebtSlots(false);
    DebtSlots(true);
  }

  /** The second tick dispatches the device again, and adds to the debt. */
  lemma DebtSecond()
    ensures Follows(FIVE, REPAIRED, Debt(false, [], 0, 1, 1, 2, 1), Timer, Debt(false, [3], 0, 2, 2, 3, 2))
  {
    hide Pair, DueFrom, SlotOf, PidFromName, Unflag;
    DebtReleased(0, 1, 1, 2, 2);
    DebtSlots(false);
  }

  /** Its yield in the same tick gives the slot an age of two, one tick after the launch. */
  lemma DebtCharged()
    ensures Follows(FIVE, REPAIRED, Debt(false, [3], 0, 2, 2, 3, 2), Yields, Debt(false, [], 0, 0, 0, 2, 2))
  {
    hide Pair, DueFrom, SlotOf, PidFromName, Unflag;
    DebtSlots(false);
    DebtSlots(true);
  }

  lemma DebtSetUp()
    ensures var k1 := Create(Boot(FIVE), Periodic, 5).0;
            && Follows(FIVE, REPAIRED, Boot(FIVE), Creates(Periodic, 5), k1)
            && Follows(FIVE, REPAIRED, k1, Creates(Device, 1), Debt(false, [], INVALID_IDX, 0, 0, INVALIDPID, 0))
  {
    hide Follows, Create;
    TwoCreated(FIVE, REPAIRED, Process(2, Periodic, 5, false), Process(3, Device, 1, false));
  }

  lemma DebtMeaning()
    ensures var k := Debt(false, [], 0, 1, 1, 2, 1);
            k.index == 0 && k.tick == 1 && k.debt == 1
    ensures Debt(false, [3], INVALID_IDX, 1, 1, 3, 1).index == INVALID_IDX
    ensures var k := Debt(false, [], 0, 0, 0, 2, 2);
            k.index == 0 && k.tick == 2 && k.current == 2 && k.tick - k.lastChange == 2
    ensures Timetable(FIVE, 1) == (0, 1)
  {
    assert Span(FIVE.maxes, 0) == 10;
  }

  /** From boot, with every repair in force: a device that is due at the first tick is dispatched before the
      launch, and yields at once. One tick after the launch, and after another punctual yield, the slot has
      an age of 2 where the timetable says 1. */
  lemma LaunchedWithDebt() returns (ks: seq<Kernel>)
    ensures |ks| == 7 && ks[0] == Boot(FIVE)
    ensures Trace(FIVE, REPAIRED, ks, [Creates(Periodic, 5), Creates(Device, 1), Timer, Yields, Timer, Yields])
    ensures ks[3].index == INVALID_IDX && ks[4].index == 0 && ks[4].tick == 1 && ks[4].debt == 1
    ensures ks[6].index == 0 && ks[6].tick == 2 && ks[6].current == 2
    ensures Timetable(FIVE, ks[6].tick - ks[4].tick) == (0, 1) != (0, ks[6].tick - ks[6].lastChange) == (0, 2)
  {
    hide Follows, Boot, Create, Debt, Timetable;
    DebtSetUp();
    DebtFirst();
    DebtLaunch();
    DebtSecond();
    DebtCharged();
    DebtMeaning();
    var k0 := Boot(FIVE);
    var k1 := Create(k0, Periodic, 5).0;
    var k2 := Debt(false, [], INVALID_IDX, 0, 0, INVALIDPID, 0);
    var k3, k4 := Debt(false, [3], INVALID_IDX, 1, 1, 3, 1), Debt(false, [], 0, 1, 1, 2, 1);
    var k5, k6 := Debt(false, [3], 0, 2, 2, 3, 2), Debt(false, [], 0, 0, 0, 2, 2);
    ks := [k0, k1, k2, k3, k4, k5, k6];
  }

  // ----- A device whose rate is a name -----

  /** The plan that OS_Init sets up. */
  const SHIPPED: Plan := Plan([1, 2, 3, 1, IDLE], [7, 5, 3, 5, 3], 1)

  /** A device of rate 2 is created before the periodic process of name 2. The name resolves to the device,
      so that the plan would run the device in the slot of that process. */
  lemma DeviceTakesName()
    ensures var k1 := Create(Boot(SHIPPED), Device, 2).0;
            var (k2, pid) := Create(k1, Periodic, 2);
            && pid == 3 && k2.names == {2} && PidFromName(k2.procs, SHIPPED.names[1]) == 2
            && LiveAt(k2.procs, 2, Device) && LiveAt(k2.procs, 3, Periodic)
  {
    var idle := Process(1, IdlePriority, 0, false);
    var d, p := Process(2, Device, 2, false), Process(3, Periodic, 2, false);
    assert Boot(SHIPPED).procs == Table([idle]);
    NextFree([idle], d);
    NextFree([idle, d], p);
    assert [idle] + [d] == [idle, d] && [idle, d] + [p] == [idle, d, p];
    var procs := Table([idle, d, p]);
    assert procs[0] == idle && procs[1] == d && procs[2] == p;
  }
}
