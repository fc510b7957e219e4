/** First come, first served: the order in which sporadic processes reach the front of their ring. */
module SchedulerSporadic {
  import opened Scheduler
  import opened SchedulerInvariant
  import opened Sequences

  function Rotated(s: seq<nat>): seq<nat>
    requires s != []
  {
    s[1..] + [s[0]]
  }

  /** The front process is sporadic, has given up its time, and no device comes first. */
  ghost predicate Rotates(v: Variant, k: Kernel) {
    var k1 := AfterRelease(v, k);
    && k.sporadic != [] && k.index != INVALID_IDX && k.current != INVALIDPID
    && LiveAt(k.procs, k.current, Sporadic) && Flagged(k.procs, k.current)
    && (k1.devices == [] || k1.devices[0] == k.current)
  }

  lemma SlotCheckRing(plan: Plan, v: Variant, k: Kernel, age: int, next: nat, gaveUp: bool)
    requires WellFormed(plan, k) && k.index != INVALID_IDX && SlotCheck(plan, v, k, age, next, gaveUp).Running?
    ensures SlotCheck(plan, v, k, age, next, gaveUp).k.sporadic == k.sporadic
  {
  }

  lemma CheckProcessRing(plan: Plan, v: Variant, k: Kernel, p: Process)
    requires WellFormed(plan, k) && k.index != INVALID_IDX && CheckProcess(plan, v, k, p).Running?
    ensures CheckProcess(plan, v, k, p).k.sporadic ==
            if p.level == Sporadic && p.yielded && k.sporadic != [] then Rotated(k.sporadic) else k.sporadic
  {
    hide SlotCheck;
    var age := NonNegative(k.tick - k.lastChange);
    if p.level == Device && p.yielded {
      var k' := k.(lastChange := k.tick - k.debt, debt := 0);
      SlotCheckRing(plan, v, k', NonNegative(k.debt), PidFromName(k.procs, plan.names[k.index]), false);
    } else if p.level == Sporadic && p.yielded {
      SlotCheckRing(plan, v, k.(sporadic := Rotated(k.sporadic)), age, k.current, true);
    } else if p.level != Device {
      SlotCheckRing(plan, v, k, age, k.current, p.yielded);
    }
  }

  lemma CheckQueuedRing(plan: Plan, v: Variant, k: Kernel)
    requires WellFormed(plan, k) && TableOk(k) && CheckQueued(plan, v, k).Running?
    ensures CheckQueued(plan, v, k).k.sporadic ==
            if && k.sporadic != [] && k.index != INVALID_IDX && k.current != INVALIDPID
               && LiveAt(k.procs, k.current, Sporadic) && Flagged(k.procs, k.current)
               && (k.devices == [] || k.devices[0] == k.current)
            then Rotated(k.sporadic) else k.sporadic
  {
    hide SlotCheck, CheckProcess;
    var i := SlotOf(k.procs, k.current);
    if k.index != INVALID_IDX && (k.devices == [] || k.devices[0] == k.current) {
      if k.current == INVALIDPID {
        SlotCheckRing(plan, v, k, NonNegative(k.tick - k.lastChange), INVALIDPID, false);
      } else {
        LevelUnique(k, i);
        FlagAt(k, i);
        CheckProcessRing(plan, v, k, k.procs[i]);
      }
    }
  }

  /** A check rotates the ring exactly if the process at its front gave up its time and no device is dispatched. */
  lemma CheckRing(plan: Plan, v: Variant, k: Kernel)
    requires WellFormed(plan, k) && TableOk(k) && Check(plan, v, k).Running?
    ensures Check(plan, v, k).k.sporadic == if Rotates(v, k) then Rotated(k.sporadic) else k.sporadic
  {
    hide CheckQueued;
    CheckQueuedRing(plan, v, AfterRelease(v, k));
  }

  // ----- Positions -----

  /** How a step may change the ring. */
  ghost predicate Served(s: seq<nat>, s': seq<nat>) {
    || s' == s
    || (s != [] && (s' == Rotated(s) || s' == s[1..]))
    || (exists x :: x !in s && s' == s + [x])
  }

  ghost predicate FrontMoved(s: seq<nat>, s': seq<nat>) {
    s != [] && (s' == [] || s'[0] != s[0])
  }

  lemma StepServes(plan: Plan, v: Variant, k: Kernel, e: Event, k': Kernel)
    requires Inv(plan, k) && Follows(plan, v, k, e, k')
    ensures Served(k.sporadic, k'.sporadic)
  {
    hide Check, Rotates;
    match e
    case Timer =>
      var k1 := k.(tick := k.tick + 1);
      CoreIgnoresSlot(plan, k, k1);
      CheckRing(plan, v, k1);
      RotatesHasFront(v, k1);
    case Yields =>
      MarkYieldedOk(plan, k);
      if k' != k {
        CheckRing(plan, v, MarkYielded(k).k);
        RotatesHasFront(v, MarkYielded(k).k);
      }
    case Terminates =>
    case Creates(level, n) => CreateServes(plan, k, level, n);
  }

  lemma RotatesHasFront(v: Variant, k: Kernel)
    ensures Rotates(v, k) ==> k.sporadic != []
  {
  }

  lemma CreateServes(plan: Plan, k: Kernel, level: Level, n: nat)
    requires Core(plan, k)
    ensures Served(k.sporadic, Create(k, level, n).0.sporadic)
  {
    NewInNoRing(k.procs, k.sporadic, k.nextPid, Sporadic);
  }

  /** Position of x in the ring, counted from the front. */
  function Rank(s: seq<nat>, x: nat): (r: nat)
    requires x in s
    ensures r < |s| && s[r] == x
    ensures forall j | 0 <= j < r :: s[j] != x
  {
    if s[0] == x then 0 else 1 + Rank(s[1..], x)
  }

  lemma RankIs(s: seq<nat>, x: nat, r: nat)
    requires Distinct(s) && r < |s| && s[r] == x
    ensures x in s && Rank(s, x) == r
  {
  }

  /** A waiting process moves up by one exactly when the front moves, and never otherwise. */
  lemma RankMoves(s: seq<nat>, s': seq<nat>, x: nat)
    requires Distinct(s) && Distinct(s') && Served(s, s') && x in s && x in s' && s[0] != x
    ensures Rank(s', x) == Rank(s, x) - if FrontMoved(s, s') then 1 else 0
  {
    var r := Rank(s, x);
    if s' == s[1..] || s' == Rotated(s) {
      assert s'[r - 1] == x;
      RankIs(s', x, r - 1);
      assert s'[0] == s[1];
    } else {
      assert s'[r] == x;
      RankIs(s', x, r);
    }
  }

  /** How often the front of the ring moved in the first i steps. */
  ghost function FrontMoves(ks: seq<Kernel>, i: nat): nat
    requires i < |ks|
  {
    if i == 0 then 0
    else FrontMoves(ks, i - 1) + if FrontMoved(ks[i - 1].sporadic, ks[i].sporadic) then 1 else 0
  }

  /** A process at position p that stays in the ring is at position p minus the number of times the front
      has moved, as long as it has not been at the front. So it gets there after exactly p rotations and
      departures, and two waiting processes keep their order. */
  lemma {:induction false} FirstComeFirstServed(plan: Plan, v: Variant, ks: seq<Kernel>, es: seq<Event>, x: nat, i: nat)
    requires |ks| == |es| + 1 && Trace(plan, v, ks, es) && Inv(plan, ks[0]) && i < |ks|
    requires forall j | 0 <= j <= i :: x in ks[j].sporadic
    requires forall j | 0 <= j < i :: ks[j].sporadic[0] != x
    ensures Rank(ks[i].sporadic, x) == Rank(ks[0].sporadic, x) - FrontMoves(ks, i)
  {
    hide Step, Allowed, Inv;
    if i > 0 {
      FirstComeFirstServed(plan, v, ks, es, x, i - 1);
      TraceKeepsInv(plan, v, ks, es, i - 1);
      TraceKeepsInv(plan, v, ks, es, i);
      assert Follows(plan, v, ks[i - 1], es[i - 1], ks[i - 1 + 1]);
      StepServes(plan, v, ks[i - 1], es[i - 1], ks[i]);
      InvDistinct(plan, ks[i - 1]);
      InvDistinct(plan, ks[i]);
      RankMoves(ks[i - 1].sporadic, ks[i].sporadic, x);
    }
  }

  lemma InvDistinct(plan: Plan, k: Kernel)
    requires Inv(plan, k)
    ensures Distinct(k.sporadic)
  {
  }
}
