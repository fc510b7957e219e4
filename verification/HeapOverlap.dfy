/** A short run in which the split as written hands out overlapping blocks. */
module HeapOverlap {
  import opened PowersOfTwo
  import opened HeapChain
  import opened HeapSearch
  import opened HeapModel
  import opened HeapTheorems
  import opened Words

  /** The first block is clear and large enough. */
  lemma ChooseHead(m: Memory, shift: nat)
    requires Tiled(m, BASE) && m[BASE] == CLEAR && 2 <= shift <= 4 && Pow2(m[BASE + 1]) >= Pow2(shift)
    ensures Choose(m, shift) == Fit(BASE, BASE, Pow2(m[BASE + 1]))
  {
    SmallPowers();
  }

  /** The first block is in use and the tail follows it. */
  lemma ChooseSecond(m: Memory, q: nat, shift: nat)
    requires Tiled(m, BASE) && m[BASE] == IN_USE && q == Next(m, BASE) && m[q + 1] == TAIL_SHIFT
    requires 2 <= shift <= 4 && q <= BASE + 16
    ensures Choose(m, shift) == Fit(q, q, Pow2(TAIL_SHIFT))
  {
    SmallPowers();
    Powers();
  }

  lemma SmallPowers()
    ensures Pow2(2) == 4 && Pow2(3) == 8 && Pow2(4) == 16
  {
  }

  lemma Shifts()
    ensures ShiftFor(2) == 2 && ShiftFor(6) == 3 && ShiftFor(14) == 4
  {
    SmallPowers();
    CeilLogIs(4, 2);
    CeilLogIs(8, 3);
    CeilLogIs(16, 4);
  }

  /** The bytes of the heap that no header has touched yet are zero. */
  ghost predicate ZeroHeap(z: Memory) {
    forall w | BASE <= w <= STACK :: z[w] == 0
  }

  ghost predicate Bytes(m: Memory, a: nat, state: u8, shift: nat)
    requires a < LIMIT
  {
    m[a] == state && m[a + 1] == shift
  }

  /** malloc(6) on the fresh heap: block A, 8 bytes from BASE. */
  lemma FirstCall(z: Memory)
    requires ZeroHeap(z)
    ensures WellFormed(InitMemory(z))
    ensures var (h, a) := Malloc(InitMemory(z), 6);
            && a == BASE + 2 && WellFormed(h)
            && Bytes(h.mem, BASE, IN_USE, 3) && Bytes(h.mem, BASE + 8, CLEAR, TAIL_SHIFT)
            && (forall w | BASE <= w <= STACK :: h.mem[w] == 0 || w in {BASE, BASE + 1, BASE + 8, BASE + 9})
            && h.book[0] == BASE && h.book[1] == 0 && h.book[2] == 0
  {
    SmallPowers();
    Shifts();
    Powers();
    ChooseHead(InitMemory(z).mem, 3);
  }

  /** malloc(6) again: block B, 8 bytes from BASE + 8. */
  lemma SecondCall(h: Heap)
    requires WellFormed(h) && Bytes(h.mem, BASE, IN_USE, 3) && Bytes(h.mem, BASE + 8, CLEAR, TAIL_SHIFT)
    requires h.book[0] == BASE && h.book[1] == 0 && h.book[2] == 0 && h.mem[BASE + 16] == 0 && h.mem[BASE + 4] == 0
    ensures var (h', a) := Malloc(h, 6);
            && a == BASE + 10 && WellFormed(h')
            && Bytes(h'.mem, BASE, IN_USE, 3) && Bytes(h'.mem, BASE + 8, IN_USE, 3)
            && h'.mem[BASE + 4] == 0
            && h'.book[0] == BASE && h'.book[1] == BASE + 8 && h'.book[2] == 0
  {
    SmallPowers();
    Shifts();
    ChooseSecond(h.mem, BASE + 8, 3);
    assert IndexFrom(h.book, 0, 1) == 1;
  }

  /** free(A), malloc(2): the byte behind the new block is zero, so a tail header is put there, in front of B. */
  lemma ThirdAndFourthCall(h: Heap)
    requires WellFormed(h) && Bytes(h.mem, BASE, IN_USE, 3) && Bytes(h.mem, BASE + 8, IN_USE, 3)
    requires h.mem[BASE + 4] == 0 && h.book[0] == BASE && h.book[1] == BASE + 8 && h.book[2] == 0
    ensures Free(h, BASE + 2).1 && WellFormed(Free(h, BASE + 2).0)
    ensures var (h', a) := Malloc(Free(h, BASE + 2).0, 2);
            && a == BASE + 2 && WellFormed(h')
            && Bytes(h'.mem, BASE, IN_USE, 2) && Bytes(h'.mem, BASE + 4, CLEAR, TAIL_SHIFT)
            && Bytes(h'.mem, BASE + 8, IN_USE, 3)
            && h'.book[0] == BASE && h'.book[1] == BASE + 8 && h'.book[2] == 0
  {
    SmallPowers();
    Shifts();
    var h1 := Free(h, BASE + 2).0;
    assert h1.mem == h.mem[BASE := CLEAR];
    assert Next(h.mem, BASE) == BASE + 8;
    SameAbove(h.mem, h1.mem, BASE + 8);
    ChooseHead(h1.mem, 2);
  }

  /** malloc(14): 16 bytes from BASE + 4, across all of block B, which is still in use and in the book. */
  lemma FifthCall(h: Heap)
    requires WellFormed(h) && Bytes(h.mem, BASE, IN_USE, 2) && Bytes(h.mem, BASE + 4, CLEAR, TAIL_SHIFT)
    requires Bytes(h.mem, BASE + 8, IN_USE, 3)
    requires h.book[0] == BASE && h.book[1] == BASE + 8 && h.book[2] == 0
    ensures var (h', a) := Malloc(h, 14);
            && a == BASE + 6 && ShiftFor(14) == 4
            && Bytes(h'.mem, BASE + 8, IN_USE, 3) && BASE + 8 in h'.book && BASE + 4 in h'.book
  {
    SmallPowers();
    Shifts();
    ChooseSecond(h.mem, BASE + 4, 4);
    assert IndexFrom(h.book, 0, 1) == 2;
    var h' := Malloc(h, 14).0;
    assert h'.book[1] == BASE + 8 && h'.book[2] == BASE + 4;
  }

  /** malloc(6), malloc(6), free of the first, malloc(2), malloc(14): on a zeroed heap the last block
      [BASE + 4, BASE + 20) covers the second one, [BASE + 8, BASE + 16), which is still allocated. */
  lemma WrittenSplitOverlaps(z: Memory)
    requires ZeroHeap(z)
    ensures WellFormed(InitMemory(z))
    ensures var (h1, a) := Malloc(InitMemory(z), 6);
            WellFormed(h1) &&
            var (h2, b) := Malloc(h1, 6);
            WellFormed(h2) &&
            var (h3, freed) := Free(h2, a);
            WellFormed(h3) &&
            var (h4, c) := Malloc(h3, 2);
            WellFormed(h4) &&
            var (h5, d) := Malloc(h4, 14);
            && a != 0 && b != 0 && freed && c != 0 && d != 0
            && d - 2 <= b - 2 && b - 2 + Pow2(ShiftFor(6)) <= d - 2 + Pow2(ShiftFor(14))
            && b - 2 in h5.book && d - 2 in h5.book
  {
    FirstCall(z);
    var h1 := Malloc(InitMemory(z), 6).0;
    assert h1.mem[BASE + 16] == 0 && h1.mem[BASE + 4] == 0;
    SecondCall(h1);
    var h2 := Malloc(h1, 6).0;
    ThirdAndFourthCall(h2);
    FifthCall(Malloc(Free(h2, BASE + 2).0, 2).0);
    SmallPowers();
    Shifts();
  }
}
