/** What allocation and release keep: the tiling, the address book, and everybody else's bytes. */
module HeapTheorems {
  import opened PowersOfTwo
  import opened HeapChain
  import opened HeapSearch
  import opened HeapModel

  lemma InitEstablishes(m: Memory)
    ensures Inv(InitMemory(m)) && Live(InitMemory(m).mem, BASE) == {}
  {
  }

  // ----- Placing a block -----

  lemma SameAbove(m: Memory, m': Memory, n: nat)
    requires Tiled(m, n)
    requires forall w | n <= w < MEMORY_SIZE :: m'[w] == m[w]
    ensures Tiled(m', n) && Live(m', n) == Live(m, n)
  {
    forall w | 0 <= w < MEMORY_SIZE && IsHeader(m, n, w)
      ensures m'[w] == m[w]
    {
      HeaderBounds(m, n, w);
    }
    ChainFrame(m, m', n);
  }

  /** After placing a block at start, the heap is tiled exactly if it is tiled from the end of the block on. */
  lemma PlaceBlock(m: Memory, m1: Memory, start: nat, shift: nat, n: nat)
    requires Path(m, BASE, start) && BASE <= start < LIMIT && 2 <= shift < TAIL_SHIFT
    requires n == start + Pow2(shift) && start + 2 <= n
    requires forall w | 0 <= w < start :: m1[w] == m[w]
    ensures var m2 := Place(m1, start, shift);
            && (Tiled(m2, BASE) <==> Tiled(m1, n))
            && (Tiled(m1, n) ==> Live(m2, BASE) == LiveOn(m, BASE, start) + {start} + Live(m1, n))
  {
    var m2 := Place(m1, start, shift);
    PathFrame(m, m2, BASE, start);
    assert Next(m2, start) == n;
    SplitChain(m2, BASE, start);
    if Tiled(m1, n) {
      SameAbove(m1, m2, n);
    } else if Tiled(m2, n) {
      SameAbove(m2, m1, n);
    }
  }

  /** A clear run contributes no live block. */
  lemma LiveBehindRun(m: Memory, f: Fit, size: nat)
    requires Chosen(m, f, size)
    ensures Tiled(m, f.start) && Live(m, f.start) == Live(m, f.last)
    ensures Tiled(m, BASE) && Live(m, BASE) == LiveOn(m, BASE, f.start) + Live(m, f.start)
    ensures f.start !in Live(m, f.start) && f.start !in Live(m, BASE)
  {
    ClearIsPath(m, f.start, f.last);
    SplitChain(m, f.start, f.last);
    SplitChain(m, BASE, f.start);
  }

  // ----- The repaired split -----

  lemma {:induction false} TileRestFrame(m: Memory, p: nat, rest: nat)
    requires p + rest <= LIMIT && Quad(rest)
    ensures forall w | 0 <= w < p || p + rest <= w < MEMORY_SIZE :: TileRest(m, p, rest)[w] == m[w]
    decreases rest
  {
    if rest > 0 {
      var k := FloorLog(rest);
      FloorLogSmall(rest);
      FloorLogAbove4(rest);
      QuadPow2(k);
      QuadDifference(rest, Pow2(k));
      TileRestFrame(m[p := CLEAR][p + 1 := k], p + Pow2(k), rest - Pow2(k));
    }
  }

  lemma {:induction false} TileRestTiles(m: Memory, p: nat, rest: nat)
    requires p + rest <= LIMIT && Quad(rest)
    ensures ClearPath(TileRest(m, p, rest), p, p + rest)
    decreases rest
  {
    if rest > 0 {
      var k := FloorLog(rest);
      FloorLogSmall(rest);
      FloorLogAbove4(rest);
      QuadPow2(k);
      QuadDifference(rest, Pow2(k));
      var m1 := m[p := CLEAR][p + 1 := k];
      var p1 := p + Pow2(k);
      TileRestFrame(m1, p1, rest - Pow2(k));
      TileRestTiles(m1, p1, rest - Pow2(k));
      LeadBlock(TileRest(m1, p1, rest - Pow2(k)), p, k, p + rest);
    }
  }

  lemma LeadBlock(m: Memory, p: nat, k: nat, e: nat)
    requires p < LIMIT && 2 <= k < TAIL_SHIFT && m[p] == CLEAR && m[p + 1] == k
    requires ClearPath(m, p + Pow2(k), e) && p + Pow2(k) <= e
    ensures ClearPath(m, p, e)
  {
  }

  lemma FloorLogAbove4(n: nat)
    requires n >= 4
    ensures FloorLog(n) >= 2
  {
    Powers();
    FloorLogAbove(n, 2);
  }

  /** What a run leaves over is a multiple of four. */
  lemma RestAligned(m: Memory, f: Fit, size: nat)
    requires Chosen(m, f, size) && m[f.last + 1] != TAIL_SHIFT && Quad(size)
    ensures Quad(f.total - size) && f.start + f.total < LIMIT
  {
    assert Tiled(m, Next(m, f.last));
    ClearIsPath(m, f.start, f.last);
    Aligned(m, f.start, f.last);
    QuadPow2(m[f.last + 1]);
    QuadSum(f.last - f.start, Pow2(m[f.last + 1]));
    QuadDifference(f.total, size);
  }

  /** The repaired split writes nothing before the rest of the run, and nothing behind the run. */
  lemma SplitTiledFrame(m: Memory, f: Fit, size: nat)
    requires Chosen(m, f, size) && Quad(size)
    ensures forall w | 0 <= w < f.start + size :: SplitTiled(m, f, size)[w] == m[w]
    ensures m[f.last + 1] != TAIL_SHIFT ==>
              forall w | f.start + f.total <= w < MEMORY_SIZE :: SplitTiled(m, f, size)[w] == m[w]
  {
    hide Path, ClearPath, Tiled, TileRest, Quad, Pow2;
    if m[f.last + 1] != TAIL_SHIFT {
      RestAligned(m, f, size);
      TileRestFrame(m, f.start + size, f.total - size);
    }
  }

  lemma SplitInnerTiles(m: Memory, f: Fit, size: nat)
    requires Chosen(m, f, size) && Quad(size) && m[f.last + 1] != TAIL_SHIFT
    ensures ClearPath(SplitTiled(m, f, size), f.start + size, f.start + f.total)
  {
    RestAligned(m, f, size);
    TileRestTiles(m, f.start + size, f.total - size);
  }

  lemma ClearThenChain(m: Memory, n: nat, e: nat)
    requires ClearPath(m, n, e) && Tiled(m, e)
    ensures Tiled(m, n) && Live(m, n) == Live(m, e)
  {
    ClearIsPath(m, n, e);
    SplitChain(m, n, e);
  }

  /** m1 agrees with m before n and is chained from n on, with the live blocks that m has behind the run. */
  ghost predicate Resplit(m: Memory, m1: Memory, n: nat, last: nat)
    requires Tiled(m, last)
  {
    && (forall w | 0 <= w < n && w < MEMORY_SIZE :: m1[w] == m[w])
    && Tiled(m1, n) && Live(m1, n) == Live(m, last)
  }

  lemma ResplitInner(m: Memory, m1: Memory, n: nat, last: nat, e: nat)
    requires Tiled(m, last) && m[last] == CLEAR && m[last + 1] != TAIL_SHIFT && e == Next(m, last)
    requires ClearPath(m1, n, e)
    requires forall w | 0 <= w < n && w < MEMORY_SIZE :: m1[w] == m[w]
    requires forall w | e <= w < MEMORY_SIZE :: m1[w] == m[w]
    ensures Resplit(m, m1, n, last)
  {
    SameAbove(m, m1, e);
    ClearThenChain(m1, n, e);
  }

  lemma ResplitTail(m: Memory, n: nat, last: nat)
    requires Tiled(m, last) && m[last + 1] == TAIL_SHIFT && n < LIMIT
    ensures Resplit(m, m[n := CLEAR][n + 1 := TAIL_SHIFT], n, last)
  {
  }

  lemma SplitTiledWorks(m: Memory, f: Fit, size: nat)
    requires Chosen(m, f, size) && Quad(size)
    ensures Resplit(m, SplitTiled(m, f, size), f.start + size, f.last)
  {
    hide Path, ClearPath, Tiled, TileRest, Quad, Pow2, Live, Resplit;
    if m[f.last + 1] != TAIL_SHIFT {
      SplitTiledFrame(m, f, size);
      SplitInnerTiles(m, f, size);
      ResplitInner(m, SplitTiled(m, f, size), f.start + size, f.last, f.start + f.total);
    } else {
      ResplitTail(m, f.start + size, f.last);
    }
  }

  // ----- Keeping the invariant -----

  /** Recording a newly placed block in the first free slot of the book restores the invariant. */
  lemma RecordBlock(h: Heap, m2: Memory, start: nat)
    requires Inv(h) && IndexFrom(h.book, 0, 0) < |h.book| && start != 0 && start !in Live(h.mem, BASE)
    requires Tiled(m2, BASE)
    ensures var h' := Heap(m2, h.book[IndexFrom(h.book, 0, 0) := start]);
            Inv(h') <==> Live(m2, BASE) == Live(h.mem, BASE) + {start}
  {
    var s := Live(h.mem, BASE) + {start};
    var i := IndexFrom(h.book, 0, 0);
    BookAdd(h.book, Live(h.mem, BASE), i, start);
    if BookMatches(h.book[i := start], Live(m2, BASE)) {
      BookDetermines(h.book[i := start], Live(m2, BASE), s);
    }
  }

  lemma PlaceResplit(m: Memory, m1: Memory, f: Fit, shift: nat, n: nat)
    requires f.Fit? && n == f.start + Pow2(shift) && 2 <= shift < TAIL_SHIFT && Chosen(m, f, Pow2(shift))
    requires Resplit(m, m1, n, f.last)
    ensures Tiled(m, BASE)
    ensures var m2 := Place(m1, f.start, shift);
            Tiled(m2, BASE) && Live(m2, BASE) == Live(m, BASE) + {f.start} && f.start !in Live(m, BASE)
  {
    LiveBehindRun(m, f, Pow2(shift));
    PlaceBlock(m, m1, f.start, shift, n);
  }

  /** Whatever it is asked for, the repaired allocator keeps the heap exactly tiled and recorded. */
  lemma AllocateTiledKeepsInv(h: Heap, shift: nat)
    requires Inv(h) && shift >= 2
    ensures var (h', a) := AllocateTiled(h, shift);
            && Inv(h')
            && (a == 0 ==> h' == h)
            && (a != 0 ==> a >= 2 && a - 2 !in Live(h.mem, BASE) && Live(h'.mem, BASE) == Live(h.mem, BASE) + {a - 2})
  {
    var f := Choose(h.mem, shift);
    if f.Fit? && IndexFrom(h.book, 0, 0) < |h.book| {
      ChoiceFits(h.mem, shift);
      QuadPow2(shift);
      var m1 := SplitTiled(h.mem, f, Pow2(shift));
      SplitTiledWorks(h.mem, f, Pow2(shift));
      PlaceResplit(h.mem, m1, f, shift, f.start + Pow2(shift));
      RecordBlock(h, Place(m1, f.start, shift), f.start);
    }
  }

  // ----- The split as written -----

  /** What the bytes from n = start + size on must look like for the written split to be right.
      A byte at n that is no state byte gets a tail header, so no live block may follow. A byte that
      looks like a state byte is taken for a header, so the old bytes from there on must already form
      a chain that visits exactly the live blocks behind the run. */
  ghost predicate SplitSound(m: Memory, start: nat, n: nat)
    requires Tiled(m, start) && n < LIMIT
  {
    if IsState(m[n]) then Tiled(m, n) && Live(m, n) == Live(m, start)
    else Live(m, start) == {}
  }

  lemma SplitAsWrittenAt(m: Memory, n: nat)
    requires n < LIMIT
    ensures var m1 := SplitAsWritten(m, n);
            && (Tiled(m1, n) <==> !IsState(m[n]) || Tiled(m, n))
            && (Tiled(m1, n) ==> Live(m1, n) == if IsState(m[n]) then Live(m, n) else {})
  {
  }

  /** The chosen run starts on the chain, at a block that is not live, and its new block ends below LIMIT. */
  lemma ChoiceFacts(m: Memory, shift: nat)
    requires Tiled(m, BASE) && shift >= 2 && Choose(m, shift).Fit?
    ensures var start := Choose(m, shift).start;
            && Path(m, BASE, start) && BASE <= start && Tiled(m, start)
            && start !in Live(m, BASE) && start !in Live(m, start)
            && shift < TAIL_SHIFT && start + 4 <= start + Pow2(shift) < LIMIT
  {
    ChoiceFits(m, shift);
    LiveBehindRun(m, Choose(m, shift), Pow2(shift));
  }

  lemma PlaceAsWritten(m: Memory, start: nat, shift: nat, n: nat)
    requires Path(m, BASE, start) && BASE <= start && 2 <= shift < TAIL_SHIFT
    requires Tiled(m, BASE) && Tiled(m, start) && start !in Live(m, start)
    requires n == start + Pow2(shift) && start + 2 <= n < LIMIT
    ensures var m2 := Place(SplitAsWritten(m, n), start, shift);
            Tiled(m2, BASE) && Live(m2, BASE) == Live(m, BASE) + {start} <==> SplitSound(m, start, n)
  {
    var m1 := SplitAsWritten(m, n);
    SplitChain(m, BASE, start);
    PlaceBlock(m, m1, start, shift, n);
    SplitAsWrittenAt(m, n);
    if Tiled(m1, n) {
      LiveSplits(m, m1, start, n);
    }
  }

  lemma AllocateAsWritten(h: Heap, start: nat, shift: nat, n: nat)
    requires Inv(h) && IndexFrom(h.book, 0, 0) < |h.book| && 2 <= shift < TAIL_SHIFT
    requires Path(h.mem, BASE, start) && BASE <= start && Tiled(h.mem, start)
    requires start !in Live(h.mem, BASE) && start !in Live(h.mem, start)
    requires n == start + Pow2(shift) && start + 2 <= n < LIMIT
    ensures Inv(Heap(Place(SplitAsWritten(h.mem, n), start, shift), h.book[IndexFrom(h.book, 0, 0) := start]))
            <==> SplitSound(h.mem, start, n)
  {
    PlaceAsWritten(h.mem, start, shift, n);
    var m2 := Place(SplitAsWritten(h.mem, n), start, shift);
    if Tiled(m2, BASE) {
      RecordBlock(h, m2, start);
    }
  }

  /** The written split would be right for a request of size 2^shift. */
  ghost predicate SplitRightFor(m: Memory, shift: nat)
    requires Tiled(m, BASE) && shift >= 2
  {
    var f := Choose(m, shift);
    if f.NoFit? then true
    else
      ChoiceFacts(m, shift);
      SplitSound(m, f.start, f.start + Pow2(shift))
  }

  /** The allocator as written keeps the invariant in a successful call exactly if its split is right. */
  lemma AllocateKeepsInvIff(h: Heap, shift: nat)
    requires Inv(h) && shift >= 2 && Allocate(h, shift).1 != 0
    ensures Inv(Allocate(h, shift).0) <==> SplitRightFor(h.mem, shift)
  {
    var start := Choose(h.mem, shift).start;
    ChoiceFacts(h.mem, shift);
    AllocateAsWritten(h, start, shift, start + Pow2(shift));
  }

  /** With a right split, the allocator as written adds exactly the block it hands out. */
  lemma AllocateAddsLive(h: Heap, shift: nat)
    requires Inv(h) && shift >= 2 && Allocate(h, shift).1 != 0 && SplitRightFor(h.mem, shift)
    ensures var (h', a) := Allocate(h, shift);
            && Inv(h') && a >= 2 && a - 2 !in Live(h.mem, BASE)
            && Live(h'.mem, BASE) == Live(h.mem, BASE) + {a - 2}
  {
    var start := Choose(h.mem, shift).start;
    ChoiceFacts(h.mem, shift);
    PlaceAsWritten(h.mem, start, shift, start + Pow2(shift));
    RecordBlock(h, Place(SplitAsWritten(h.mem, start + Pow2(shift)), start, shift), start);
  }

  lemma LiveSplits(m: Memory, m1: Memory, start: nat, n: nat)
    requires Path(m, BASE, start) && Tiled(m, start) && Tiled(m1, n) && start < n && start !in Live(m, start)
    ensures LiveOn(m, BASE, start) + {start} + Live(m1, n) == LiveOn(m, BASE, start) + Live(m, start) + {start}
            <==> Live(m1, n) == Live(m, start)
  {
    var low := LiveOn(m, BASE, start);
    var x, y := Live(m1, n), Live(m, start);
    if low + {start} + x == low + y + {start} {
      forall b
        ensures b in x <==> b in y
      {
        assert b in low + {start} + x <==> b in low + y + {start};
      }
    }
  }

  // ----- When allocation succeeds -----

  /** A request succeeds exactly if its block size is allowed, the address book has a free slot, and
      some clear block ends a clear run of that size soon enough; the first such run is used. */
  lemma AllocateSucceedsIff(h: Heap, shift: nat)
    requires WellFormed(h) && shift >= 2
    ensures Allocate(h, shift).1 == AllocateTiled(h, shift).1
    ensures Allocate(h, shift).1 != 0 <==>
            && Pow2(shift) <= MAX_SINGLE_MALLOC
            && 0 in h.book
            && exists s: nat, c: nat :: Serves(h.mem, s, c, Pow2(shift))
    ensures Allocate(h, shift).1 != 0 ==>
              exists s: nat, c: nat :: FirstServes(h.mem, s, c, Pow2(shift)) && Allocate(h, shift).1 == s + 2
  {
    if Pow2(shift) <= MAX_SINGLE_MALLOC {
      SearchIsFirstFit(h.mem, Pow2(shift));
      var f := Choose(h.mem, shift);
      assert f.Fit? ==> FirstServes(h.mem, f.start, f.last, Pow2(shift));
    }
  }

  // ----- Failure, and the bytes of others -----

  /** A header address is the first or second byte of a block the chain visits. */
  lemma {:induction false} HeaderOf(m: Memory, a: nat, w: nat) returns (c: nat)
    requires Tiled(m, a) && IsHeader(m, a, w)
    ensures Path(m, a, c) && c < LIMIT && IsState(m[c]) && (w == c || w == c + 1)
    decreases LIMIT - a
  {
    if w == a || w == a + 1 {
      c := a;
    } else {
      c := HeaderOf(m, Next(m, a), w);
    }
  }

  /** The header that the written split puts at n overwrites no header. */
  lemma SplitHitsNoHeader(m: Memory, n: nat)
    requires Tiled(m, BASE) && BASE <= n < LIMIT && Quad(n - BASE) && !IsState(m[n])
    ensures !IsHeader(m, BASE, n) && !IsHeader(m, BASE, n + 1)
  {
    if IsHeader(m, BASE, n) {
      var c := HeaderOf(m, BASE, n);
      Aligned(m, BASE, c);
      QuadNeighbours(c - BASE, n - BASE);
    }
    if IsHeader(m, BASE, n + 1) {
      var c := HeaderOf(m, BASE, n + 1);
      Aligned(m, BASE, c);
      QuadNeighbours(n - BASE, c - BASE);
    }
  }

  lemma QuadNeighbours(a: nat, b: nat)
    requires Quad(a) && Quad(b)
    ensures b != a + 1
  {
    if b == a + 1 {
      QuadDifference(b, a);
    }
  }

  lemma SplitAligned(m: Memory, shift: nat)
    requires Tiled(m, BASE) && shift >= 2 && Choose(m, shift).Fit?
    ensures var n := Choose(m, shift).start + Pow2(shift); BASE <= n < LIMIT && Quad(n - BASE)
  {
    ChoiceFacts(m, shift);
    Aligned(m, BASE, Choose(m, shift).start);
    QuadPow2(shift);
    QuadSum(Choose(m, shift).start - BASE, Pow2(shift));
  }

  /** A denied request leaves the invariant alone, even when the written code has already split the run. */
  lemma DeniedKeepsInv(h: Heap, shift: nat)
    requires Inv(h) && shift >= 2 && Allocate(h, shift).1 == 0
    ensures Inv(Allocate(h, shift).0) && Live(Allocate(h, shift).0.mem, BASE) == Live(h.mem, BASE)
  {
    var f := Choose(h.mem, shift);
    if f.Fit? {
      SplitAligned(h.mem, shift);
      var n := f.start + Pow2(shift);
      if !IsState(h.mem[n]) {
        SplitHitsNoHeader(h.mem, n);
        ChainFrame(h.mem, SplitAsWritten(h.mem, n), BASE);
      }
    }
  }

  /** A live block lies entirely before the chosen run or entirely behind it. */
  lemma LiveOutsideRun(m: Memory, f: Fit, size: nat, b: nat)
    requires Chosen(m, f, size) && Tiled(m, BASE) && b in Live(m, BASE)
    ensures Next(m, b) <= f.start || (m[f.last + 1] != TAIL_SHIFT && f.start + f.total <= b)
  {
    LiveVisited(m, BASE, b);
    ClearIsPath(m, f.start, f.last);
    if b < f.start {
      PathBetween(m, BASE, b, f.start);
      PathGrows(m, Next(m, b), f.start);
    } else if b <= f.last {
      PathBetween(m, BASE, f.start, b);
      if b < f.last {
        ClearAt(m, f.start, b, f.last);
      }
    } else {
      PathThen(m, BASE, f.start, f.last);
      PathBetween(m, BASE, f.last, b);
      PathGrows(m, Next(m, f.last), b);
    }
  }

  /** The bytes that the written code changes all lie in the chosen run. */
  lemma WrittenSplitStaysInRun(m: Memory, f: Fit, size: nat)
    requires Chosen(m, f, size) && Quad(size)
    ensures var n := f.start + size;
            !IsState(m[n]) && m[f.last + 1] != TAIL_SHIFT ==> n + 2 <= f.start + f.total
  {
    if m[f.last + 1] != TAIL_SHIFT {
      assert Tiled(m, f.start + f.total);
      RestAligned(m, f, size);
    }
  }

  /** Neither form of allocation changes a byte of a live block. */
  lemma AllocateSparesOthers(h: Heap, shift: nat, b: nat, w: nat)
    requires WellFormed(h) && shift >= 2 && b in Live(h.mem, BASE) && b <= w < Next(h.mem, b) && w < MEMORY_SIZE
    ensures Allocate(h, shift).0.mem[w] == h.mem[w]
    ensures AllocateTiled(h, shift).0.mem[w] == h.mem[w]
  {
    var f := Choose(h.mem, shift);
    if f.Fit? {
      ChoiceFits(h.mem, shift);
      QuadPow2(shift);
      LiveOutsideRun(h.mem, f, Pow2(shift), b);
      WrittenSplitStaysInRun(h.mem, f, Pow2(shift));
      SplitTiledFrame(h.mem, f, Pow2(shift));
    }
  }

  // ----- Release -----

  /** Marking a live block clear removes it from the chain's live blocks and changes nothing else. */
  lemma ClearLive(m: Memory, b: nat)
    requires Tiled(m, BASE) && b in Live(m, BASE)
    ensures Tiled(m[b := CLEAR], BASE) && Live(m[b := CLEAR], BASE) == Live(m, BASE) - {b}
  {
    hide Path, LiveOn, Pow2;
    var m' := m[b := CLEAR];
    LiveVisited(m, BASE, b);
    SplitChain(m, BASE, b);
    PathFrame(m, m', BASE, b);
    SameAbove(m, m', Next(m, b));
    SplitChain(m', BASE, b);
  }

  /** OS_Free reports TRUE exactly for a live block, apart from one stray address: 2, whose header byte
      is the byte at 0, matches an unused slot of the address book. */
  lemma FreeSucceedsIff(h: Heap, addr: nat)
    requires Inv(h) && addr < MEMORY_SIZE
    ensures Free(h, addr).1 <==>
            HeaderAddress(addr) in Live(h.mem, BASE) || (addr == 2 && h.mem[0] == IN_USE && 0 in h.book)
  {
  }

  lemma FreeKeepsInv(h: Heap, addr: nat)
    requires Inv(h) && addr < MEMORY_SIZE
    ensures var (h', ok) := Free(h, addr);
            && Inv(h')
            && (!ok ==> h' == h)
            && Live(h'.mem, BASE) == (if ok then Live(h.mem, BASE) - {HeaderAddress(addr)} else Live(h.mem, BASE))
            && forall w | 0 <= w < MEMORY_SIZE && w != HeaderAddress(addr) :: h'.mem[w] == h.mem[w]
  {
    var base := HeaderAddress(addr);
    var i := IndexFrom(h.book, base, 0);
    if Free(h, addr).1 {
      if base in Live(h.mem, BASE) {
        ClearLive(h.mem, base);
        BookRemove(h.book, Live(h.mem, BASE), i);
      } else {
        assert base == 0;
        LowIsNoHeader(h.mem, 0);
        ChainFrame(h.mem, h.mem[0 := CLEAR], BASE);
        assert h.book[i := 0] == h.book;
      }
    }
  }

  lemma LowIsNoHeader(m: Memory, w: nat)
    requires Tiled(m, BASE) && w < BASE
    ensures !IsHeader(m, BASE, w)
  {
    if IsHeader(m, BASE, w) {
      HeaderBounds(m, BASE, w);
    }
  }
}
