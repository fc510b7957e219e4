/** OS_Malloc as its callers see it: which requests are granted, where, and how much memory they get. */
module HeapRequests {
  import opened PowersOfTwo
  import opened HeapChain
  import opened HeapSearch
  import opened HeapModel
  import opened HeapTheorems
  import opened HeapRuns
  import opened Words

  /** p is the least power of two with room for val bytes and the two bytes of the header. */
  ghost predicate BlockFor(val: int, p: nat) {
    (exists k: nat :: p == Pow2(k)) && p / 2 < val + 2 <= p
  }

  lemma BlockIs(val: int, p: nat)
    requires val >= 2
    ensures BlockFor(val, p) <==> p == Pow2(ShiftFor(val))
  {
    var shift := ShiftFor(val);
    if k: nat :| p == Pow2(k) && p / 2 < val + 2 <= p {
      CeilLogIs(val + 2, k);
      CeilLogIs(val + 2, shift);
    }
  }

  /** A block of p bytes, from s on, is granted at a in heap h, and h' is the heap afterwards. */
  ghost predicate GrantedAt(h: Heap, p: nat, s: nat, c: nat, h': Heap, a: nat) {
    && FirstServes(h.mem, s, c, p) && a == s + 2 && s + p < LIMIT
    && h'.mem[a - 2] == IN_USE && Next(h'.mem, a - 2) == a - 2 + p
  }

  /** A request for val bytes is granted exactly if it asks for 2 bytes or more, the least power of two with
      room for them and the header is allowed, the address book has a free slot, and some clear run serves
      that size. The address lies 2 past the start of the first such run, and the header there says that
      size. A request for less changes nothing. */
  lemma RequestGrantedIff(h: Heap, val: int, repaired: bool)
    requires WellFormed(h) && val < INT_MAX
    ensures var (h', a) := Granted(h, val, repaired);
            && (a != 0 <==>
                && val >= 2 && 0 in h.book
                && exists p: nat, s: nat, c: nat ::
                     BlockFor(val, p) && p <= MAX_SINGLE_MALLOC && Serves(h.mem, s, c, p))
            && (a != 0 ==> exists p: nat, s: nat, c: nat :: BlockFor(val, p) && GrantedAt(h, p, s, c, h', a))
            && (val < 2 || (repaired && a == 0) ==> h' == h)
  {
    hide Tiled, Serves, FirstServes, GrantedAt, BlockFor, Allocate, AllocateTiled, Pow2;
    if val >= 2 {
      var shift := ShiftFor(val);
      var p := Pow2(shift);
      forall q: nat
        ensures BlockFor(val, q) <==> q == p
      {
        BlockIs(val, q);
      }
      AllocateSucceedsIff(h, shift);
      if Allocate(h, shift).1 != 0 {
        PlacedAt(h, shift);
        var s: nat, c: nat :| Serves(h.mem, s, c, p);
        assert BlockFor(val, p) && p <= MAX_SINGLE_MALLOC && Serves(h.mem, s, c, p);
      } else {
        DeniedTiled(h, shift);
      }
    }
  }

  lemma DeniedTiled(h: Heap, shift: nat)
    requires WellFormed(h) && shift >= 2 && AllocateTiled(h, shift).1 == 0
    ensures AllocateTiled(h, shift).0 == h
  {
  }

  lemma PlacedAt(h: Heap, shift: nat)
    requires WellFormed(h) && shift >= 2 && Allocate(h, shift).1 != 0
    ensures Allocate(h, shift).1 == AllocateTiled(h, shift).1
    ensures exists s: nat, c: nat :: && GrantedAt(h, Pow2(shift), s, c, Allocate(h, shift).0, Allocate(h, shift).1)
                                     && GrantedAt(h, Pow2(shift), s, c, AllocateTiled(h, shift).0, Allocate(h, shift).1)
  {
    hide Path, ClearPath, Tiled, TileRest, SplitTiled, SplitAsWritten, Find, Serves, Pow2, Choose;
    AllocateSucceedsIff(h, shift);
    var f := Choose(h.mem, shift);
    ChosenFirst(h.mem, shift);
    ChoiceFits(h.mem, shift);
    HeaderPlaced(SplitAsWritten(h.mem, f.start + Pow2(shift)), f.start, shift);
    HeaderPlaced(SplitTiled(h.mem, f, Pow2(shift)), f.start, shift);
    assert GrantedAt(h, Pow2(shift), f.start, f.last, Allocate(h, shift).0, Allocate(h, shift).1);
  }

  lemma ChosenFirst(m: Memory, shift: nat)
    requires Tiled(m, BASE) && shift >= 2 && Choose(m, shift).Fit?
    ensures var f := Choose(m, shift); FirstServes(m, f.start, f.last, Pow2(shift)) && f.start + Pow2(shift) < LIMIT
  {
    hide Path, ClearPath, Tiled, Find, Serves, Pow2;
    SearchIsFirstFit(m, Pow2(shift));
    ChoiceFits(m, shift);
  }

  lemma HeaderPlaced(m: Memory, start: nat, shift: nat)
    requires start < LIMIT && shift < TAIL_SHIFT
    ensures var m' := Place(m, start, shift);
            m'[start] == IN_USE && Next(m', start) == start + Pow2(shift)
  {
  }

  // ----- What a request as written changes -----

  /** The bytes after a block of p bytes has been carved out at s: a tail header behind it unless the byte
      there looks like a state byte, and the header of the block itself if it is placed. */
  ghost predicate CarvedBytes(m: Memory, m': Memory, p: nat, s: nat, placed: bool)
    requires s + p < LIMIT
  {
    var split := m[s + p] != 0xF0 && m[s + p] != 0x0F;
    forall w | 0 <= w < MEMORY_SIZE && w != s + 1 ::
      m'[w] == if placed && w == s then 0xF0
               else if split && w == s + p then 0x0F
               else if split && w == s + p + 1 then 29
               else m[w]
  }

  /** s is entered in place of the first 0. */
  ghost predicate Entered(book: seq<nat>, book': seq<nat>, s: nat) {
    exists i: nat :: i < |book| && book[i] == 0 && (forall j | 0 <= j < i :: book[j] != 0) && book' == book[i := s]
  }

  /** The effect of a request as written on a heap in which the run at s serves p bytes first. With a full
      book it is denied, but the run has been split all the same. */
  ghost predicate WrittenEffect(h: Heap, p: nat, s: nat, h': Heap, a: nat)
    requires s + p < LIMIT
  {
    && CarvedBytes(h.mem, h'.mem, p, s, 0 in h.book)
    && if 0 in h.book then
         a == s + 2 && Entered(h.book, h'.book, s) && Next(h'.mem, s) == s + p
       else
         a == 0 && h'.book == h.book && h'.mem[s + 1] == h.mem[s + 1]
  }

  lemma AllocateEffect(h: Heap, shift: nat)
    requires WellFormed(h) && shift >= 2 && Choose(h.mem, shift).Fit?
    ensures var s := Choose(h.mem, shift).start;
            && s + Pow2(shift) < LIMIT
            && WrittenEffect(h, Pow2(shift), s, Allocate(h, shift).0, Allocate(h, shift).1)
  {
    hide Path, ClearPath, Tiled, Find, Pow2, Choose;
    ChoiceFits(h.mem, shift);
    var s, n := Choose(h.mem, shift).start, Choose(h.mem, shift).start + Pow2(shift);
    var i := IndexFrom(h.book, 0, 0);
    HeaderPlaced(SplitAsWritten(h.mem, n), s, shift);
    assert i < |h.book| ==> Allocate(h, shift).0.book == h.book[i := s];
  }

  /** The run that serves a size first is the one that the search chooses. */
  lemma FirstIsChosen(m: Memory, shift: nat, s: nat, c: nat)
    requires Tiled(m, BASE) && shift >= 2 && Pow2(shift) <= MAX_SINGLE_MALLOC && FirstServes(m, s, c, Pow2(shift))
    ensures Choose(m, shift).Fit? && Choose(m, shift).start == s
  {
    hide Path, ClearPath, Tiled, Find, AfterUse, Pow2;
    SearchIsFirstFit(m, Pow2(shift));
    var f := Choose(m, shift);
    assert Serves(m, s, c, Pow2(shift));
    assert f.last == c;
    MaximalRunUnique(m, f.start, s, c);
  }

  /** What a request as written does to every byte and to the address book: nothing if its size is not allowed or
      no run serves it, and else what carving the block out of the first run that does. */
  lemma RequestEffect(h: Heap, val: int, p: nat, s: nat, c: nat)
    requires WellFormed(h) && val < INT_MAX
    ensures (forall q: nat, t: nat, d: nat | val >= 2 && BlockFor(val, q) && q <= MAX_SINGLE_MALLOC ::
               !Serves(h.mem, t, d, q)) ==> Malloc(h, val) == (h, 0)
    ensures val >= 2 && BlockFor(val, p) && p <= MAX_SINGLE_MALLOC && FirstServes(h.mem, s, c, p) ==>
              s + p < LIMIT && WrittenEffect(h, p, s, Malloc(h, val).0, Malloc(h, val).1)
  {
    hide Path, ClearPath, Tiled, Find, Serves, FirstServes, WrittenEffect, Pow2, BlockFor;
    if val >= 2 {
      var shift := ShiftFor(val);
      BlockIs(val, Pow2(shift));
      BlockIs(val, p);
      if Choose(h.mem, shift).Fit? {
        ChosenServes(h.mem, shift);
        AllocateEffect(h, shift);
        if BlockFor(val, p) && FirstServes(h.mem, s, c, p) {
          FirstIsChosen(h.mem, shift, s, c);
        }
      } else if BlockFor(val, p) && p <= MAX_SINGLE_MALLOC && FirstServes(h.mem, s, c, p) {
        FirstIsChosen(h.mem, shift, s, c);
      }
    }
  }

  lemma ChosenServes(m: Memory, shift: nat)
    requires Tiled(m, BASE) && shift >= 2 && Choose(m, shift).Fit?
    ensures Pow2(shift) <= MAX_SINGLE_MALLOC
    ensures Serves(m, Choose(m, shift).start, Choose(m, shift).last, Pow2(shift))
  {
    hide Path, ClearPath, Tiled, Find, Serves, Pow2;
    SearchIsFirstFit(m, Pow2(shift));
  }

  // ----- Bytes that no request changes -----

  /** A request changes no byte outside the heap, and none of the payload that it hands out. */
  lemma RequestSpares(h: Heap, val: int, repaired: bool, w: nat)
    requires WellFormed(h) && val < INT_MAX && w < MEMORY_SIZE
    requires var (h', a) := Granted(h, val, repaired);
             w < BASE || w >= STACK || (a > 1 && a <= w && InPayload(h'.mem, a - 2, w))
    ensures Granted(h, val, repaired).0.mem[w] == h.mem[w]
  {
    hide Path, ClearPath, Tiled, TileRest, Find, Serves, Pow2, Choose;
    if val >= 2 {
      var shift := ShiftFor(val);
      var f := Choose(h.mem, shift);
      if f.Fit? {
        ChoiceFits(h.mem, shift);
        QuadPow2(shift);
        SplitTiledInHeap(h.mem, f, Pow2(shift));
        HeaderPlaced(SplitAsWritten(h.mem, f.start + Pow2(shift)), f.start, shift);
        HeaderPlaced(SplitTiled(h.mem, f, Pow2(shift)), f.start, shift);
      }
    }
  }

  lemma SplitTiledInHeap(m: Memory, f: Fit, size: nat)
    requires Chosen(m, f, size) && Quad(size)
    ensures forall w | 0 <= w < f.start + size || STACK <= w < MEMORY_SIZE :: SplitTiled(m, f, size)[w] == m[w]
  {
    hide Path, ClearPath, TileRest, Quad, Pow2;
    SplitTiledFrame(m, f, size);
    if m[f.last + 1] != TAIL_SHIFT {
      RestAligned(m, f, size);
    }
  }

  /** Initialisation writes the two bytes of one header and no others. */
  lemma InitSpares(m: Memory, w: nat)
    requires w < MEMORY_SIZE && w != BASE && w != BASE + 1
    ensures InitMemory(m).mem[w] == m[w]
  {
  }

  // ----- The fresh heap -----

  /** A fresh heap grants exactly the requests from 2 bytes to 4 MB less the header, all at its base. */
  lemma FreshHeapGrantsIff(z: Memory, val: int, repaired: bool)
    requires val < INT_MAX
    ensures WellFormed(InitMemory(z))
    ensures Granted(InitMemory(z), val, repaired).1 == if 2 <= val <= 0x3F_FFFE then BASE + 2 else 0
  {
    hide Pow2;
    var h := InitMemory(z);
    if val >= 2 {
      var shift := ShiftFor(val);
      FreshChoice(h.mem, shift);
      FourMegabytes();
      if shift <= 22 {
        Pow2Monotone(shift, 22);
      } else {
        Pow2Monotone(22, shift - 1);
        Pow2Monotone(22, shift);
      }
      assert IndexFrom(h.book, 0, 0) == 0;
    }
  }

  lemma FourMegabytes()
    ensures Pow2(22) == 0x40_0000 && Pow2(23) == 0x80_0000
  {
    Powers();
    assert Pow2(17) == 0x2_0000;
    assert Pow2(20) == 0x10_0000;
  }

  lemma FreshChoice(m: Memory, shift: nat)
    requires m[BASE] == CLEAR && m[BASE + 1] == TAIL_SHIFT && shift >= 2
    ensures Tiled(m, BASE)
    ensures Choose(m, shift) == if BASE + Pow2(shift) < LIMIT then Fit(BASE, BASE, Pow2(TAIL_SHIFT)) else NoFit
  {
    Powers();
  }

  // ----- The size of a block over whole runs -----

  /** A step under which a stays handed out keeps the size in its header. */
  lemma StepKeepsSize(repaired: bool, world: World, op: Op, next: World, a: nat)
    requires Sane(world) && Step(repaired, world, op, next) && a in world.handed
    ensures a >= 2 && a - 2 < LIMIT && next.heap.mem[a - 1] == world.heap.mem[a - 1]
  {
    var m := world.heap.mem;
    LiveBlocksDisjoint(m, a - 2, a - 2);
    LiveIsInner(m, a - 2);
    match op
    case Request(val) =>
      if val >= 2 {
        AllocateSparesOthers(world.heap, ShiftFor(val), a - 2, a - 1);
      }
    case Release(addr) => ReleaseKeepsSize(world, addr, a);
    case Store(w, v) => StoreKeepsSize(world, w, a);
  }

  lemma LiveIsInner(m: Memory, b: nat)
    requires Tiled(m, BASE) && b in Live(m, BASE)
    ensures Next(m, b) >= b + 4
  {
    LiveVisited(m, BASE, b);
    QuadPow2(m[b + 1]);
  }

  lemma ReleaseKeepsSize(world: World, addr: nat, a: nat)
    requires Sane(world) && addr < MEMORY_SIZE && a in world.handed
    ensures Free(world.heap, addr).0.mem[a - 1] == world.heap.mem[a - 1]
  {
    var m := world.heap.mem;
    var base := HeaderAddress(addr);
    FreeKeepsInv(world.heap, addr);
    FreeSucceedsIff(world.heap, addr);
    if base == a - 1 && base in Live(m, BASE) {
      LiveBlocksDisjoint(m, a - 2, base);
      LiveIsInner(m, a - 2);
    }
  }

  lemma StoreKeepsSize(world: World, w: nat, a: nat)
    requires Sane(world) && StoreAllowed(world, w) && a in world.handed
    ensures w != a - 1
  {
    var m := world.heap.mem;
    LiveBlocksDisjoint(m, a - 2, a - 2);
    LiveIsInner(m, a - 2);
    if BASE <= w < STACK {
      var b :| b in world.handed && b >= 2 && InPayload(m, b - 2, w);
      if b < a {
        LiveBlocksDisjoint(m, b - 2, a - 2);
      }
    }
  }

  /** In every run, a block that a request for val bytes was handed keeps the size of the least power of two
      with room for them and the header, for as long as it stays handed out. */
  lemma {:induction false} HandedSizeKept(repaired: bool, worlds: seq<World>, ops: seq<Op>,
        i: nat, j: nat, val: int, a: nat)
    requires Run(repaired, worlds, ops) && i < j < |worlds| && ops[i] == Request(val)
    requires a !in worlds[i].handed && forall l | i < l <= j :: a in worlds[l].handed
    ensures a >= 2 && a - 2 < LIMIT
    ensures exists p: nat :: BlockFor(val, p) && Next(worlds[j].heap.mem, a - 2) == a - 2 + p
    decreases j
  {
    hide Sane, FirstServes, BlockFor, Tiled, Serves, Free, MallocTiled, Malloc;
    RunsAreSane(repaired, worlds, ops, j - 1);
    assert Step(repaired, worlds[j - 1], ops[j - 1], worlds[j - 1 + 1]);
    if j == i + 1 {
      RequestGrantedIff(worlds[i].heap, val, repaired);
    } else {
      HandedSizeKept(repaired, worlds, ops, i, j - 1, val, a);
      StepKeepsSize(repaired, worlds[j - 1], ops[j - 1], worlds[j], a);
    }
  }

  /** So val bytes from the address on are payload of that block. */
  lemma HandedHasRoom(repaired: bool, worlds: seq<World>, ops: seq<Op>, i: nat, j: nat, val: int, a: nat, w: nat)
    requires Run(repaired, worlds, ops) && i < j < |worlds| && ops[i] == Request(val)
    requires a !in worlds[i].handed && forall l | i < l <= j :: a in worlds[l].handed
    requires a <= w < a + val
    ensures a >= 2 && InPayload(worlds[j].heap.mem, a - 2, w)
  {
    hide Run;
    HandedSizeKept(repaired, worlds, ops, i, j, val, a);
  }
}
