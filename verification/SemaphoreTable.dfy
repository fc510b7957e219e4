/** The steps of OS_Wait and OS_Signal on the kernel's own data: the counts and the ownership bitmaps. */
module SemaphoreTable {
  import opened Semaphores
  import opened Words
  import NameRegistry

  class SemaphoreTable {
    const counts: array<int>
    const bitmaps: seq<array<nat>>
    /** Where each slot stands; in the kernel this is the program counter of its process. */
    ghost var phases: seq<Phase>
    const oneBit: bool

    ghost predicate Valid()
      reads this
    {
      && counts.Length == MAXSEM && |phases| == |bitmaps|
      && (forall p | 0 <= p < |bitmaps| :: bitmaps[p].Length == 1 && bitmaps[p] as object != counts)
      && (forall p, q | 0 <= p < q < |bitmaps| :: bitmaps[p] != bitmaps[q])
      && (forall p | 0 <= p < |phases| :: phases[p] != Outside ==> phases[p].s < MAXSEM)
    }

    constructor (counts: array<int>, bitmaps: seq<array<nat>>, oneBit: bool)
      requires counts.Length == MAXSEM
      requires forall p | 0 <= p < |bitmaps| :: bitmaps[p].Length == 1 && bitmaps[p] as object != counts
      requires forall p, q | 0 <= p < q < |bitmaps| :: bitmaps[p] != bitmaps[q]
      ensures Valid() && this.counts == counts && this.bitmaps == bitmaps && this.oneBit == oneBit
      ensures forall p | 0 <= p < |phases| :: phases[p] == Outside
    {
      this.counts, this.bitmaps, this.oneBit := counts, bitmaps, oneBit;
      phases := seq(|bitmaps|, _ => Outside);
    }

    ghost function Owns(p: nat): set<nat>
      requires Valid() && p < |bitmaps|
      reads this, bitmaps[p]
    {
      NameRegistry.Names(bitmaps[p][..])
    }

    ghost function View(): (st: State)
      requires Valid()
      reads this, counts, bitmaps
      ensures |st.slots| == |bitmaps| && st.counts == counts[..]
      ensures forall p | 0 <= p < |bitmaps| :: st.slots[p] == Slot(Owns(p), phases[p])
    {
      State(counts[..],
            seq(|bitmaps|, p requires 0 <= p < |bitmaps| && Valid() reads this, bitmaps => Slot(Owns(p), phases[p])))
    }

    /** OS_InitSem, as far as the count is concerned. */
    method InitSem(s: nat, n: int)
      requires Valid() && s < MAXSEM
      modifies counts
      ensures Valid() && View() == old(View()).(counts := old(View()).counts[s := n])
      ensures counts[..] == old(counts[..])[s := n]
    {
      counts[s] := n;
      assert View().slots == old(View()).slots;
    }

    /** A process enters OS_Wait. */
    ghost method Enter(p: nat, s: nat)
      requires Valid() && Enabled(View(), Action.Enter(p, s))
      modifies this`phases
      ensures Valid() && View() == Next(old(View()), Action.Enter(p, s), oneBit)
      ensures phases == old(phases)[p := Waiting(s)]
    {
      phases := phases[p := Waiting(s)];
      assert View().slots == old(View()).slots[p := Slot(Owns(p), Waiting(s))];
    }

    /** The test and the decrement in OS_Wait, with interrupts off; after a failed test the process yields
        and tries again. */
    method TryTake(p: nat, s: nat) returns (taken: bool)
      requires Valid() && p < |bitmaps| && s < MAXSEM && phases[p] == Waiting(s)
      modifies counts, this`phases
      ensures Valid() && taken == Enabled(old(View()), Take(p))
      ensures taken <==> old(counts[s]) > 0
      ensures counts[..] == if taken then old(counts[..])[s := old(counts[s]) - 1] else old(counts[..])
      ensures phases == if taken then old(phases)[p := Granted(s)] else old(phases)
      ensures View() == if taken then Next(old(View()), Take(p), oneBit) else old(View())
    {
      taken := counts[s] > 0;
      if taken {
        counts[s] := counts[s] - 1;
        phases := phases[p := Granted(s)];
        assert View().slots == old(View()).slots[p := Slot(Owns(p), Granted(s))];
      }
    }

    /** The end of OS_Wait: register_bit. */
    method RegisterGrant(p: nat, s: nat)
      requires Valid() && p < |bitmaps| && s < MAXSEM && phases[p] == Granted(s)
      modifies bitmaps[p], this`phases
      ensures Valid() && View() == Next(old(View()), Register(p), oneBit)
      ensures Owns(p) == old(Owns(p)) + {s} && phases == old(phases)[p := Outside]
    {
      ghost var was := bitmaps[p][..];
      var done := NameRegistry.RegisterBit(bitmaps[p], s);
      NameRegistry.AllNames(was);
      NameRegistry.Renamed(bitmaps[p][..], NameRegistry.Names(was) + {s});
      phases := phases[p := Outside];
      assert View().slots == old(View()).slots[p := Slot(Owns(p), Outside)];
    }

    /** The beginning of OS_Signal: unregister_bit says whether the process holds the semaphore. */
    method TryRelease(p: nat, s: nat) returns (held: bool)
      requires Valid() && p < |bitmaps| && s < MAXSEM && phases[p] == Outside
      modifies bitmaps[p], this`phases
      ensures Valid() && held == Enabled(old(View()), Release(p, s))
      ensures held <==> s in old(Owns(p))
      ensures phases == if held then old(phases)[p := Releasing(s)] else old(phases)
      ensures forall t :: t in Owns(p) <==>
                t in old(Owns(p)) && (held ==> if oneBit then t != s else t / WORD != s / WORD)
      ensures View() == if held then Next(old(View()), Release(p, s), oneBit) else old(View())
    {
      ghost var was := bitmaps[p][..];
      NameRegistry.AllNames(was);
      held := NameRegistry.UnregisterBit(bitmaps[p], s, oneBit);
      if held {
        NameRegistry.Renamed(bitmaps[p][..], Cleared(NameRegistry.Names(was), s, oneBit));
        phases := phases[p := Releasing(s)];
        assert View().slots == old(View()).slots[p := Slot(Owns(p), Releasing(s))];
      } else {
        assert View().slots == old(View()).slots;
      }
    }

    /** The increment in OS_Signal. */
    method PutUp(p: nat, s: nat)
      requires Valid() && p < |bitmaps| && s < MAXSEM && phases[p] == Releasing(s)
      modifies counts, this`phases
      ensures Valid() && View() == Next(old(View()), Action.PutUp(p), oneBit)
      ensures counts[..] == old(counts[..])[s := old(counts[s]) + 1] && phases == old(phases)[p := Outside]
    {
      counts[s] := counts[s] + 1;
      phases := phases[p := Outside];
      assert View().slots == old(View()).slots[p := Slot(Owns(p), Outside)];
    }
  }
}
