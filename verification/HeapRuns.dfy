/** Whole runs of the allocator, with users writing to their blocks in between. */
module HeapRuns {
  import opened PowersOfTwo
  import opened HeapChain
  import opened HeapModel
  import opened HeapTheorems
  import opened Words

  datatype Op = Request(val: int) | Release(addr: nat) | Store(w: nat, v: u8)

  /** The heap, and the addresses handed out and not yet freed successfully. */
  datatype World = World(heap: Heap, handed: set<nat>)

  /** Users write outside the heap, or into the payload of a block they were handed. */
  ghost predicate StoreAllowed(world: World, w: nat) {
    && w < MEMORY_SIZE
    && (w < BASE || w >= STACK || exists a :: a in world.handed && a >= 2 && InPayload(world.heap.mem, a - 2, w))
  }

  ghost predicate Initial(world: World) {
    world.handed == {} && exists m: Memory :: world.heap == InitMemory(m)
  }

  /** One step. The allocator as written is followed only where its split is right. */
  ghost predicate Step(repaired: bool, world: World, op: Op, next: World)
    requires WellFormed(world.heap)
  {
    match op
    case Request(val) =>
      && val < INT_MAX
      && (!repaired && val >= 2 ==> SplitRightFor(world.heap.mem, ShiftFor(val)))
      && var (heap, a) := Granted(world.heap, val, repaired);
         next == World(heap, if a == 0 then world.handed else world.handed + {a})
    case Release(addr) =>
      && addr < MEMORY_SIZE
      && var (heap, ok) := Free(world.heap, addr);
         next == World(heap, if ok then world.handed - {addr} else world.handed)
    case Store(w, v) =>
      && StoreAllowed(world, w)
      && next == World(Heap(world.heap.mem[w := v], world.heap.book), world.handed)
  }

  /** The heap is tiled, the address book is exact, and the live blocks are those handed out. */
  ghost predicate Sane(world: World) {
    && Inv(world.heap)
    && (forall a | a in world.handed :: a >= 2 && a - 2 in Live(world.heap.mem, BASE))
    && (forall b | b in Live(world.heap.mem, BASE) :: b + 2 in world.handed)
  }

  ghost predicate Run(repaired: bool, worlds: seq<World>, ops: seq<Op>) {
    && |worlds| == |ops| + 1
    && Initial(worlds[0])
    && forall i | 0 <= i < |ops| :: WellFormed(worlds[i].heap) && Step(repaired, worlds[i], ops[i], worlds[i + 1])
  }

  /** What an allocation in either form does to the live blocks. */
  ghost predicate Extends(h: Heap, result: (Heap, nat)) {
    && Inv(h) && Inv(result.0)
    && (result.1 == 0 ==> Live(result.0.mem, BASE) == Live(h.mem, BASE))
    && (result.1 != 0 ==> result.1 >= 2 && Live(result.0.mem, BASE) == Live(h.mem, BASE) + {result.1 - 2})
  }

  lemma AllocateExtends(h: Heap, shift: nat)
    requires Inv(h) && shift >= 2 && SplitRightFor(h.mem, shift)
    ensures Extends(h, Allocate(h, shift))
  {
    if Allocate(h, shift).1 == 0 {
      DeniedKeepsInv(h, shift);
    } else {
      AllocateAddsLive(h, shift);
    }
  }

  lemma AllocateTiledExtends(h: Heap, shift: nat)
    requires Inv(h) && shift >= 2
    ensures Extends(h, AllocateTiled(h, shift))
  {
    AllocateTiledKeepsInv(h, shift);
  }

  lemma ExtensionKeepsSane(world: World, result: (Heap, nat))
    requires Sane(world) && Extends(world.heap, result)
    ensures Sane(World(result.0, if result.1 == 0 then world.handed else world.handed + {result.1}))
  {
    hide Inv, Live;
  }

  lemma RequestKeepsSane(repaired: bool, world: World, val: int)
    requires Sane(world) && val < INT_MAX
    requires !repaired && val >= 2 ==> SplitRightFor(world.heap.mem, ShiftFor(val))
    ensures Extends(world.heap, Granted(world.heap, val, repaired))
  {
    if val >= 2 {
      if repaired {
        AllocateTiledExtends(world.heap, ShiftFor(val));
      } else {
        AllocateExtends(world.heap, ShiftFor(val));
      }
    }
  }

  lemma StoreKeepsSane(world: World, w: nat, v: u8)
    requires Sane(world) && StoreAllowed(world, w)
    ensures Sane(World(Heap(world.heap.mem[w := v], world.heap.book), world.handed))
  {
    hide BookMatches, Pow2;
    var m := world.heap.mem;
    if w < BASE {
      LowIsNoHeader(m, w);
    } else if w >= STACK {
      if IsHeader(m, BASE, w) {
        HeaderBounds(m, BASE, w);
      }
    } else {
      var a :| a in world.handed && a >= 2 && InPayload(m, a - 2, w);
      LiveVisited(m, BASE, a - 2);
      InsideIsNoHeader(m, BASE, a - 2, w);
    }
    ChainFrame(m, m[w := v], BASE);
  }

  lemma ReleaseKeepsSane(world: World, addr: nat)
    requires Sane(world) && addr < MEMORY_SIZE
    ensures var (heap, ok) := Free(world.heap, addr);
            Sane(World(heap, if ok then world.handed - {addr} else world.handed))
  {
    FreeKeepsInv(world.heap, addr);
    FreeSucceedsIff(world.heap, addr);
  }

  lemma StepKeepsSane(repaired: bool, world: World, op: Op, next: World)
    requires Sane(world) && Step(repaired, world, op, next)
    ensures Sane(next)
  {
    match op
    case Request(val) =>
      RequestKeepsSane(repaired, world, val);
      ExtensionKeepsSane(world, Granted(world.heap, val, repaired));
    case Release(addr) => ReleaseKeepsSane(world, addr);
    case Store(w, v) => StoreKeepsSane(world, w, v);
  }

  /** Every state of every run is sane: with the repaired split always, with the written one
      as long as each split was right. */
  lemma {:induction false} RunsAreSane(repaired: bool, worlds: seq<World>, ops: seq<Op>, i: nat)
    requires Run(repaired, worlds, ops) && i < |worlds|
    ensures Sane(worlds[i])
  {
    if i == 0 {
      var m: Memory :| worlds[0].heap == InitMemory(m);
      InitEstablishes(m);
    } else {
      RunsAreSane(repaired, worlds, ops, i - 1);
      StepKeepsSane(repaired, worlds[i - 1], ops[i - 1], worlds[i]);
    }
  }

  /** OS_Free reports TRUE exactly for an address that was handed out and not freed since,
      or for the stray address 2 when the byte at 0 reads as in use and the book has an unused slot. */
  lemma FreeMatchesLedger(repaired: bool, worlds: seq<World>, ops: seq<Op>, i: nat, addr: nat)
    requires Run(repaired, worlds, ops) && i < |worlds| && addr < MEMORY_SIZE
    ensures Inv(worlds[i].heap)
    ensures Free(worlds[i].heap, addr).1 <==>
            addr in worlds[i].handed || (addr == 2 && worlds[i].heap.mem[0] == IN_USE && 0 in worlds[i].heap.book)
  {
    hide Run, BookMatches, Live, Free;
    RunsAreSane(repaired, worlds, ops, i);
    FreeSucceedsIff(worlds[i].heap, addr);
  }

  /** From the step on at which addr is released, and as long as no request is made, addr is not handed out. */
  lemma {:induction false} StaysReleased(repaired: bool, worlds: seq<World>, ops: seq<Op>, i: nat, j: nat, addr: nat)
    requires Run(repaired, worlds, ops) && i < j < |worlds|
    requires ops[i] == Release(addr) && addr < MEMORY_SIZE && addr != 2
    requires forall l | i < l < j :: !ops[l].Request?
    ensures addr !in worlds[j].handed
    decreases j
  {
    assert Step(repaired, worlds[j - 1], ops[j - 1], worlds[j - 1 + 1]);
    if i + 1 < j {
      StaysReleased(repaired, worlds, ops, i, j - 1, addr);
    } else {
      FreeMatchesLedger(repaired, worlds, ops, i, addr);
    }
  }

  /** After OS_Free of an address, whether it succeeded or not, and until the next request, OS_Free of the
      same address reports FALSE; the stray address 2 is left aside. */
  lemma SecondFreeFails(repaired: bool, worlds: seq<World>, ops: seq<Op>, i: nat, j: nat, addr: nat)
    requires Run(repaired, worlds, ops) && i < j < |worlds|
    requires ops[i] == Release(addr) && addr < MEMORY_SIZE && addr != 2
    requires forall l | i < l < j :: !ops[l].Request?
    ensures Inv(worlds[j].heap) && !Free(worlds[j].heap, addr).1
  {
    hide Run, Inv, Free;
    StaysReleased(repaired, worlds, ops, i, j, addr);
    FreeMatchesLedger(repaired, worlds, ops, j, addr);
  }

  /** In every state of a run, two blocks handed out do not overlap, and each ends below LIMIT. */
  lemma HandedBlocksDisjoint(repaired: bool, worlds: seq<World>, ops: seq<Op>, i: nat, a: nat, b: nat)
    requires Run(repaired, worlds, ops) && i < |worlds| && a in worlds[i].handed && b in worlds[i].handed && a < b
    ensures var m := worlds[i].heap.mem;
            a >= 2 && b - 2 < LIMIT && Next(m, a - 2) <= b - 2 && Next(m, b - 2) < LIMIT
  {
    RunsAreSane(repaired, worlds, ops, i);
    var m := worlds[i].heap.mem;
    LiveBlocksDisjoint(m, a - 2, b - 2);
    LiveBlocksDisjoint(m, b - 2, b - 2);
  }

  lemma FreeSparesOthers(world: World, addr: nat, a: nat, w: nat)
    requires Sane(world) && addr < MEMORY_SIZE && a in world.handed && InPayload(world.heap.mem, a - 2, w)
    requires w < MEMORY_SIZE
    ensures Free(world.heap, addr).0.mem[w] == world.heap.mem[w]
  {
    FreeKeepsInv(world.heap, addr);
    FreeSucceedsIff(world.heap, addr);
    var base := HeaderAddress(addr);
    if base in Live(world.heap.mem, BASE) {
      LiveApart(world.heap.mem, a - 2, base, w);
    }
  }

  lemma LiveApart(m: Memory, b: nat, c: nat, w: nat)
    requires Tiled(m, BASE) && b in Live(m, BASE) && c in Live(m, BASE) && InPayload(m, b, w)
    ensures w != c
  {
    if b < c {
      LiveBlocksDisjoint(m, b, c);
    }
  }

  /** No allocation and no release changes a payload byte of a block that is handed out. */
  lemma OthersKeepTheirBytes(repaired: bool, world: World, op: Op, next: World, a: nat, w: nat)
    requires Sane(world) && Step(repaired, world, op, next) && !op.Store?
    requires a in world.handed && InPayload(world.heap.mem, a - 2, w)
    ensures w < MEMORY_SIZE && next.heap.mem[w] == world.heap.mem[w]
  {
    hide BookMatches, Live, Allocate, AllocateTiled;
    LiveBlocksDisjoint(world.heap.mem, a - 2, a - 2);
    if op.Request? && op.val >= 2 {
      AllocateSparesOthers(world.heap, ShiftFor(op.val), a - 2, w);
    } else if op.Release? {
      FreeSparesOthers(world, op.addr, a, w);
    }
  }
}
