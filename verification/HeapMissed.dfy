/** A short run after which the heap is entirely free, and yet a request is denied that was granted before. */
module HeapMissed {
  import opened PowersOfTwo
  import opened HeapChain
  import opened HeapSearch
  import opened HeapModel
  import opened Words

  const SMALL: nat := 21
  const LARGE: nat := 22
  const SMALL_SIZE: nat := 0x20_0000
  const LARGE_SIZE: nat := 0x40_0000

  lemma Sizes()
    ensures Pow2(SMALL) == SMALL_SIZE && Pow2(LARGE) == LARGE_SIZE
    ensures ShiftFor(SMALL_SIZE - 2) == SMALL && ShiftFor(LARGE_SIZE - 2) == LARGE
  {
    Powers();
    assert Pow2(17) == 0x2_0000;
    assert Pow2(20) == 0x10_0000;
    CeilLogIs(SMALL_SIZE, SMALL);
    CeilLogIs(LARGE_SIZE, LARGE);
  }

  /** The fresh heap grants both requests at its base. */
  lemma FreshGrants(m: Memory, shift: nat, size: nat)
    requires m[BASE] == CLEAR && m[BASE + 1] == TAIL_SHIFT && size == Pow2(shift) <= LARGE_SIZE && 2 <= shift
    ensures Tiled(m, BASE) && Choose(m, shift) == Fit(BASE, BASE, Pow2(TAIL_SHIFT))
  {
    Powers();
  }

  /** A clear block of the small size, and the tail behind it. */
  ghost predicate TwoClear(m: Memory) {
    && m[BASE] == CLEAR && m[BASE + 1] == SMALL
    && m[BASE + SMALL_SIZE] == CLEAR && m[BASE + SMALL_SIZE + 1] == TAIL_SHIFT
  }

  /** The walk stops at the tail, where a block of the large size would not fit, although the free run
      begins early enough. */
  lemma TwoClearMisses(m: Memory)
    requires TwoClear(m)
    ensures Tiled(m, BASE) && Live(m, BASE) == {}
    ensures Choose(m, LARGE) == NoFit && Missed(m, BASE, LARGE_SIZE)
  {
    Sizes();
    Powers();
    var q := BASE + SMALL_SIZE;
    assert Next(m, BASE) == q;
    assert Tiled(m, q);
    assert Find(m, q, SMALL_SIZE, LARGE_SIZE) == NoFit;
    assert FreeTotal(m, q) == Pow2(TAIL_SHIFT);
    assert Reaching(m, BASE, q, LARGE_SIZE) == q;
  }

  /** malloc of 2 MB less the header, free, malloc of 4 MB less the header: the last request is denied,
      although no block is in use and it would have been granted at first. So it is in both forms; as
      written, if the byte at which the first block ends does not look like a state byte. */
  lemma FreedHeapDenies(z: Memory, repaired: bool) returns (h1: Heap, h2: Heap, a: nat)
    requires repaired || !IsState(z[BASE + SMALL_SIZE])
    ensures WellFormed(InitMemory(z)) && Granted(InitMemory(z), LARGE_SIZE - 2, repaired).1 != 0
    ensures (h1, a) == Granted(InitMemory(z), SMALL_SIZE - 2, repaired) && a == BASE + 2 && WellFormed(h1)
    ensures Free(h1, BASE + 2) == (h2, true)
    ensures WellFormed(h2) && Live(h2.mem, BASE) == {}
    ensures Missed(h2.mem, BASE, LARGE_SIZE) && Granted(h2, LARGE_SIZE - 2, repaired).1 == 0
  {
    Sizes();
    var h := InitMemory(z);
    FreshGrants(h.mem, SMALL, SMALL_SIZE);
    FreshGrants(h.mem, LARGE, LARGE_SIZE);
    h1 := Granted(h, SMALL_SIZE - 2, repaired).0;
    a := BASE + 2;
    assert IndexFrom(h.book, 0, 0) == 0;
    assert h1.book[0] == BASE;
    assert IndexFrom(h1.book, BASE, 0) == 0;
    h2 := Free(h1, a).0;
    TwoClearMisses(h2.mem);
  }

  // ----- First fit is not best fit -----

  /** A clear block of 16 bytes, one of 4 in use, a clear one of 4, one of 4 in use, and the tail. */
  ghost predicate TwoGaps(m: Memory) {
    && m[BASE] == CLEAR && m[BASE + 1] == 4
    && m[BASE + 16] == IN_USE && m[BASE + 17] == 2
    && m[BASE + 20] == CLEAR && m[BASE + 21] == 2
    && m[BASE + 24] == IN_USE && m[BASE + 25] == 2
    && m[BASE + 28] == CLEAR && m[BASE + 29] == TAIL_SHIFT
  }

  lemma TwoGapsChain(m: Memory)
    requires TwoGaps(m)
    ensures Tiled(m, BASE) && Live(m, BASE) == {BASE + 16, BASE + 24}
    ensures Tiled(m, BASE + 20) && FreeTotal(m, BASE) == 16 && FreeTotal(m, BASE + 20) == 4
    ensures MaximalRun(m, BASE + 20, BASE + 20)
  {
    assert Pow2(2) == 4 && Pow2(4) == 16;
    assert Tiled(m, BASE + 28) && Live(m, BASE + 28) == {};
    assert Tiled(m, BASE + 24) && Live(m, BASE + 24) == {BASE + 24};
    assert Tiled(m, BASE + 20) && Live(m, BASE + 20) == {BASE + 24};
    assert Tiled(m, BASE + 16) && Live(m, BASE + 16) == {BASE + 16, BASE + 24};
    assert FreeTotal(m, BASE + 24) == 0 && FreeTotal(m, BASE + 16) == 0;
    assert Path(m, BASE + 16, BASE + 20) && Path(m, BASE, BASE + 20);
    assert Path(m, BASE, BASE + 16) && Next(m, BASE + 16) == BASE + 20;
  }

  lemma GapsBook(book: seq<nat>)
    requires book == seq(BOOK_SIZE, _ => 0)[0 := BASE + 16][1 := BASE + 24]
    ensures BookMatches(book, {BASE + 16, BASE + 24}) && IndexFrom(book, 0, 0) == 2
  {
    assert book[0] == BASE + 16 && book[1] == BASE + 24 && book[2] == 0;
  }

  lemma GapsMemory() returns (m: Memory)
    ensures TwoGaps(m)
  {
    m := seq(MEMORY_SIZE, _ => 0)
      [BASE := CLEAR][BASE + 1 := 4]
      [BASE + 16 := IN_USE][BASE + 17 := 2]
      [BASE + 20 := CLEAR][BASE + 21 := 2]
      [BASE + 24 := IN_USE][BASE + 25 := 2]
      [BASE + 28 := CLEAR][BASE + 29 := TAIL_SHIFT];
  }

  lemma TwoGapsChoice(m: Memory)
    requires TwoGaps(m) && Tiled(m, BASE)
    ensures ShiftFor(2) == 2 && Pow2(2) == 4 && Choose(m, 2) == Fit(BASE, BASE, 16)
  {
    CeilLogIs(4, 2);
    assert Pow2(2) == 4 && Pow2(4) == 16;
    Powers();
  }

  /** A heap that satisfies the invariant, and in which malloc of 2 bytes takes the first gap of 16 bytes
      although there is one of 4 bytes, just what it needs. */
  lemma FirstNotSmallest() returns (h: Heap)
    ensures Inv(h) && TwoGaps(h.mem)
    ensures MergedServes(h.mem, BASE + 20, Pow2(ShiftFor(2))) && Tiled(h.mem, BASE)
    ensures FreeTotal(h.mem, BASE + 20) == Pow2(ShiftFor(2)) < FreeTotal(h.mem, BASE)
    ensures Malloc(h, 2).1 == MallocTiled(h, 2).1 == BASE + 2
  {
    hide TwoGaps, BookMatches, Tiled, Path, ClearPath, AfterUse, SplitAsWritten, SplitTiled, Find, Pow2;
    var m := GapsMemory();
    var book := seq(BOOK_SIZE, _ => 0)[0 := BASE + 16][1 := BASE + 24];
    h := Heap(m, book);
    TwoGapsChain(m);
    GapsBook(book);
    TwoGapsChoice(m);
  }
}
