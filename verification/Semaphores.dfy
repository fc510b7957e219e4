/** OS_Wait and OS_Signal as a protocol of interleaved steps. Testing and decrementing a count is one step,
    because interrupts are off; the ownership bit is set and cleared in steps of its own. */
module Semaphores {
  import opened Words

  const MAXSEM: nat := 16

  /** Where a process slot stands. Granted: the count has been taken down, the bit is not set yet.
      Releasing: the bit is cleared, the count has not been put up yet. */
  datatype Phase = Outside | Waiting(s: nat) | Granted(s: nat) | Releasing(s: nat)

  /** A process slot: its ownership bits, which stay with the slot, and its phase. */
  datatype Slot = Slot(owns: set<nat>, phase: Phase)

  datatype State = State(counts: seq<int>, slots: seq<Slot>)

  datatype Action =
    | Enter(p: nat, s: nat)
    | Take(p: nat)
    | Register(p: nat)
    | Release(p: nat, s: nat)
    | PutUp(p: nat)

  /** unregister_bit on the ownership bits, as written or with one bit cleared. */
  function Cleared(owns: set<nat>, s: nat, oneBit: bool): set<nat> {
    if oneBit then owns - {s} else set t | t in owns && t / WORD != s / WORD
  }

  /** The action is the next thing that slot p may do. */
  predicate Enabled(st: State, a: Action) {
    a.p < |st.slots| &&
    var slot := st.slots[a.p];
    match a
    case Enter(_, s) => slot.phase == Outside && s < |st.counts|
    case Take(_) => slot.phase.Waiting? && slot.phase.s < |st.counts| && st.counts[slot.phase.s] > 0
    case Register(_) => slot.phase.Granted?
    case Release(_, s) => slot.phase == Outside && s in slot.owns
    case PutUp(_) => slot.phase.Releasing? && slot.phase.s < |st.counts|
  }

  function Next(st: State, a: Action, oneBit: bool): (st': State)
    requires Enabled(st, a)
  {
    var slot := st.slots[a.p];
    match a
    case Enter(p, s) => st.(slots := st.slots[p := slot.(phase := Waiting(s))])
    case Take(p) =>
      var s := slot.phase.s;
      State(st.counts[s := st.counts[s] - 1], st.slots[p := slot.(phase := Granted(s))])
    case Register(p) =>
      st.(slots := st.slots[p := Slot(slot.owns + {slot.phase.s}, Outside)])
    case Release(p, s) =>
      st.(slots := st.slots[p := Slot(Cleared(slot.owns, s, oneBit), Releasing(s))])
    case PutUp(p) =>
      var s := slot.phase.s;
      State(st.counts[s := st.counts[s] + 1], st.slots[p := slot.(phase := Outside)])
  }

  // ----- Conservation -----

  /** The units of semaphore s that a slot accounts for. */
  function Units(slot: Slot, s: nat): nat {
    (if s in slot.owns then 1 else 0) + (if slot.phase == Granted(s) || slot.phase == Releasing(s) then 1 else 0)
  }

  function UnitsOf(slots: seq<Slot>, s: nat): nat {
    if slots == [] then 0 else UnitsOf(slots[..|slots| - 1], s) + Units(slots[|slots| - 1], s)
  }

  /** What is left of semaphore s and what the slots account for make up the initial number n. */
  ghost predicate Conserved(st: State, s: nat, n: int) {
    s < |st.counts| && st.counts[s] >= 0 && st.counts[s] + UnitsOf(st.slots, s) == n
  }

  lemma {:induction false} UnitsUpdate(slots: seq<Slot>, p: nat, slot: Slot, s: nat)
    requires p < |slots|
    ensures UnitsOf(slots[p := slot], s) == UnitsOf(slots, s) - Units(slots[p], s) + Units(slot, s)
    decreases |slots|
  {
    var rest := slots[..|slots| - 1];
    if p == |slots| - 1 {
      assert slots[p := slot][..|slots| - 1] == rest;
    } else {
      assert slots[p := slot][..|slots| - 1] == rest[p := slot];
      UnitsUpdate(rest, p, slot, s);
    }
  }

  /** The steps that could break conservation of semaphore t: a grant registered by a slot that owns t
      already, and a release that clears the bit of t along with that of another semaphore. */
  ghost predicate Harmless(st: State, a: Action, oneBit: bool, t: nat)
    requires Enabled(st, a)
  {
    match a
    case Register(p) => st.slots[p].phase.s == t ==> t !in st.slots[p].owns
    case Release(p, s) => !oneBit && t != s && t in st.slots[p].owns ==> t / WORD != s / WORD
    case _ => true
  }

  /** Every step conserves every semaphore, except exactly the harmful ones. */
  lemma StepConservesIff(st: State, a: Action, oneBit: bool, t: nat, n: int)
    requires Enabled(st, a) && Conserved(st, t, n)
    ensures Conserved(Next(st, a, oneBit), t, n) <==> Harmless(st, a, oneBit, t)
  {
    UnitsUpdate(st.slots, a.p, Next(st, a, oneBit).slots[a.p], t);
  }

  /** A process waits for semaphore t only while its slot does not own it. */
  ghost predicate Discipline(st: State, t: nat) {
    forall p | 0 <= p < |st.slots| ::
      st.slots[p].phase == Waiting(t) || st.slots[p].phase == Granted(t) ==> t !in st.slots[p].owns
  }

  lemma StepKeepsDiscipline(st: State, a: Action, oneBit: bool, t: nat)
    requires Enabled(st, a) && Discipline(st, t)
    requires a.Enter? && a.s == t ==> t !in st.slots[a.p].owns
    ensures Discipline(Next(st, a, oneBit), t)
    ensures oneBit || !a.Release? ==> Harmless(st, a, oneBit, t)
  {
  }

  // ----- Every interleaving -----

  /** A run: any slot takes any enabled step next, entering for semaphore t only if it does not own it. */
  ghost predicate Run(sts: seq<State>, acts: seq<Action>, oneBit: bool, t: nat) {
    && |sts| == |acts| + 1
    && forall i | 0 <= i < |acts| ::
         && Enabled(sts[i], acts[i])
         && (acts[i].Enter? && acts[i].s == t ==> t !in sts[i].slots[acts[i].p].owns)
         && sts[i + 1] == Next(sts[i], acts[i], oneBit)
  }

  /** Semaphore s has just been initialised with n, and no slot has anything to do with it but wait. */
  ghost predicate Initialised(st: State, s: nat, n: nat) {
    && s < |st.counts| && st.counts[s] == n
    && forall p | 0 <= p < |st.slots| :: Units(st.slots[p], s) == 0
  }

  lemma {:induction false} NoUnits(slots: seq<Slot>, s: nat)
    requires forall p | 0 <= p < |slots| :: Units(slots[p], s) == 0
    ensures UnitsOf(slots, s) == 0
    decreases |slots|
  {
    if slots != [] {
      NoUnits(slots[..|slots| - 1], s);
    }
  }

  lemma {:induction false} RunKeepsDiscipline(sts: seq<State>, acts: seq<Action>, oneBit: bool, t: nat, i: nat)
    requires Run(sts, acts, oneBit, t) && Discipline(sts[0], t) && i < |sts|
    ensures Discipline(sts[i], t)
  {
    hide Enabled, Next, Discipline;
    if i > 0 {
      RunKeepsDiscipline(sts, acts, oneBit, t, i - 1);
      assert sts[i - 1 + 1] == Next(sts[i - 1], acts[i - 1], oneBit);
      StepKeepsDiscipline(sts[i - 1], acts[i - 1], oneBit, t);
    }
  }

  lemma InitialDiscipline(st: State, s: nat, n: nat)
    requires Initialised(st, s, n)
    ensures Discipline(st, s)
  {
  }

  /** Under every interleaving the count, the owners, the grants under way and the releases under way of a
      semaphore add up to its initial number; with one bit cleared always, and with the written code as
      long as no release clears a word in which the slot has the bit of this semaphore as well. */
  lemma {:induction false} RunConserves(sts: seq<State>, acts: seq<Action>, oneBit: bool, s: nat, n: nat, i: nat)
    requires Run(sts, acts, oneBit, s) && Initialised(sts[0], s, n) && i < |sts|
    requires oneBit || forall j | 0 <= j < |acts| && acts[j].Release? :: Harmless(sts[j], acts[j], oneBit, s)
    ensures Conserved(sts[i], s, n)
  {
    hide Enabled, Next, Discipline, Harmless, Conserved;
    if i == 0 {
      InitialConserved(sts[0], s, n);
    } else {
      RunConserves(sts, acts, oneBit, s, n, i - 1);
      InitialDiscipline(sts[0], s, n);
      RunKeepsDiscipline(sts, acts, oneBit, s, i - 1);
      assert sts[i - 1 + 1] == Next(sts[i - 1], acts[i - 1], oneBit);
      StepKeepsDiscipline(sts[i - 1], acts[i - 1], oneBit, s);
      StepConservesIff(sts[i - 1], acts[i - 1], oneBit, s, n);
    }
  }

  lemma InitialConserved(st: State, s: nat, n: nat)
    requires Initialised(st, s, n)
    ensures Conserved(st, s, n)
  {
    NoUnits(st.slots, s);
  }

  // ----- Who has to wait -----

  lemma {:induction false} SomeUnit(slots: seq<Slot>, s: nat)
    requires UnitsOf(slots, s) > 0
    ensures exists q :: 0 <= q < |slots| && Units(slots[q], s) > 0
    decreases |slots|
  {
    var last := |slots| - 1;
    if Units(slots[last], s) == 0 {
      SomeUnit(slots[..last], s);
      var q :| 0 <= q < last && Units(slots[..last][q], s) > 0;
      assert slots[q] == slots[..last][q];
    }
  }

  /** Under every interleaving a slot that waits for a semaphore initialised with n gets a unit at its next
      attempt exactly if fewer than n units are owned, granted or being put back. So it is refused exactly if
      all n of them are, and then, unless n is 0, by some slot that can be named. */
  lemma WaitSucceedsIff(sts: seq<State>, acts: seq<Action>, oneBit: bool, s: nat, n: nat, i: nat, p: nat)
    requires Run(sts, acts, oneBit, s) && Initialised(sts[0], s, n) && i < |sts|
    requires oneBit || forall j | 0 <= j < |acts| && acts[j].Release? :: Harmless(sts[j], acts[j], oneBit, s)
    requires p < |sts[i].slots| && sts[i].slots[p].phase == Waiting(s)
    ensures UnitsOf(sts[i].slots, s) <= n
    ensures Enabled(sts[i], Take(p)) <==> UnitsOf(sts[i].slots, s) < n
    ensures !Enabled(sts[i], Take(p)) && n > 0 ==>
              exists q :: 0 <= q < |sts[i].slots| && Units(sts[i].slots[q], s) > 0
  {
    RunConserves(sts, acts, oneBit, s, n, i);
    if UnitsOf(sts[i].slots, s) > 0 {
      SomeUnit(sts[i].slots, s);
    }
  }

  /** Nobody is ever held up in the middle of a call, except by a semaphore without units. */
  lemma OnlyTakingWaits(st: State, p: nat, s: nat)
    requires p < |st.slots|
    ensures Enabled(st, Enter(p, s)) <==> st.slots[p].phase == Outside && s < |st.counts|
    ensures st.slots[p].phase == Waiting(s) && s < |st.counts| ==> (Enabled(st, Take(p)) <==> st.counts[s] > 0)
    ensures st.slots[p].phase == Granted(s) ==> Enabled(st, Register(p))
    ensures st.slots[p].phase == Releasing(s) && s < |st.counts| ==> Enabled(st, PutUp(p))
  {
  }

  /** An undisturbed OS_Wait goes through at once exactly if there is a unit left. The slot owns the semaphore
      at the end, and the count is one less. */
  lemma WaitAcquires(st: State, p: nat, s: nat, oneBit: bool)
    requires p < |st.slots| && st.slots[p].phase == Outside && s < |st.counts|
    ensures Enabled(st, Enter(p, s))
    ensures var waiting := Next(st, Enter(p, s), oneBit);
            && (Enabled(waiting, Take(p)) <==> st.counts[s] > 0)
            && (Enabled(waiting, Take(p)) ==>
                  var granted := Next(waiting, Take(p), oneBit);
                  && Enabled(granted, Register(p))
                  && Next(granted, Register(p), oneBit) ==
                     State(st.counts[s := st.counts[s] - 1], st.slots[p := Slot(st.slots[p].owns + {s}, Outside)]))
  {
    var waiting := Next(st, Enter(p, s), oneBit);
    if st.counts[s] > 0 {
      var granted := Next(waiting, Take(p), oneBit);
      assert Next(granted, Register(p), oneBit).slots == st.slots[p := Slot(st.slots[p].owns + {s}, Outside)];
    }
  }

  /** An undisturbed OS_Signal by an owner puts the unit back. It gives up this semaphore and no other exactly
      if one bit is cleared or the slot owns no other in the same word. */
  lemma SignalReleases(st: State, p: nat, s: nat, oneBit: bool)
    requires p < |st.slots| && st.slots[p].phase == Outside && s < |st.counts|
    ensures Enabled(st, Release(p, s)) <==> s in st.slots[p].owns
    ensures s in st.slots[p].owns ==>
              var releasing := Next(st, Release(p, s), oneBit);
              && Enabled(releasing, PutUp(p))
              && var st' := Next(releasing, PutUp(p), oneBit);
                 && st'.counts == st.counts[s := st.counts[s] + 1]
                 && |st'.slots| == |st.slots| && st'.slots[p].phase == Outside
                 && (forall q | 0 <= q < |st.slots| && q != p :: st'.slots[q] == st.slots[q])
                 && (st'.slots[p].owns == st.slots[p].owns - {s} <==>
                     oneBit || forall t | t in st.slots[p].owns && t != s :: t / WORD != s / WORD)
  {
    var owns := st.slots[p].owns;
    if s in owns && Cleared(owns, s, oneBit) == owns - {s} {
      forall t | t in owns && t != s
        ensures oneBit || t / WORD != s / WORD
      {
        assert t in Cleared(owns, s, oneBit);
      }
    }
  }

  // ----- Mutual exclusion -----

  /** The slots that own semaphore s. */
  ghost function Owners(slots: seq<Slot>, s: nat): set<nat> {
    set p | 0 <= p < |slots| && s in slots[p].owns
  }

  lemma {:induction false} OwnersCounted(slots: seq<Slot>, s: nat)
    ensures |Owners(slots, s)| <= UnitsOf(slots, s)
    decreases |slots|
  {
    if slots != [] {
      var last := |slots| - 1;
      OwnersCounted(slots[..last], s);
      assert Owners(slots, s) == Owners(slots[..last], s) + (if s in slots[last].owns then {last} else {});
    }
  }

  /** At most n processes hold a semaphore initialised with n. */
  lemma AtMostNHolders(sts: seq<State>, acts: seq<Action>, oneBit: bool, s: nat, n: nat, i: nat)
    requires Run(sts, acts, oneBit, s) && Initialised(sts[0], s, n) && i < |sts|
    requires oneBit || forall j | 0 <= j < |acts| && acts[j].Release? :: Harmless(sts[j], acts[j], oneBit, s)
    ensures |Owners(sts[i].slots, s)| <= n
  {
    RunConserves(sts, acts, oneBit, s, n, i);
    OwnersCounted(sts[i].slots, s);
  }

  /** The written code: a slot that holds semaphores 0 and 1 signals 0; the unit of semaphore 1 is lost. */
  lemma WrittenReleaseLosesUnit()
    ensures var st := State([0, 0], [Slot({0, 1}, Outside)]);
            && Conserved(st, 1, 1) && Enabled(st, Release(0, 0))
            && !Conserved(Next(st, Release(0, 0), false), 1, 1)
  {
    var st := State([0, 0], [Slot({0, 1}, Outside)]);
    assert UnitsOf(st.slots, 1) == 1;
    StepConservesIff(st, Release(0, 0), false, 1, 1);
  }
}
