/** OS_InitMemory, OS_Malloc and OS_Free as functions on the memory bytes and the address book. */
module HeapModel {
  import opened PowersOfTwo
  import opened HeapChain
  import opened HeapSearch
  import opened Words

  const BOOK_SIZE: nat := 128

  datatype Heap = Heap(mem: Memory, book: seq<nat>)

  // ----- The address book -----

  /** Index of the first entry equal to a from position i on, or |book|. */
  function IndexFrom(book: seq<nat>, a: nat, i: nat): (r: nat)
    requires i <= |book|
    ensures i <= r <= |book|
    ensures r < |book| ==> book[r] == a
    ensures forall j | i <= j < r :: book[j] != a
    decreases |book| - i
  {
    if i == |book| || book[i] == a then i else IndexFrom(book, a, i + 1)
  }

  /** The nonzero entries are exactly the elements of s, each recorded once. */
  ghost predicate BookMatches(book: seq<nat>, s: set<nat>) {
    && (forall i | 0 <= i < |book| :: book[i] != 0 ==> book[i] in s)
    && (forall b | b in s :: b != 0 && b in book)
    && (forall i, j | 0 <= i < j < |book| :: book[i] != 0 ==> book[i] != book[j])
  }

  lemma BookAdd(book: seq<nat>, s: set<nat>, i: nat, a: nat)
    requires BookMatches(book, s) && i < |book| && book[i] == 0 && a != 0 && a !in s
    ensures BookMatches(book[i := a], s + {a})
  {
    var book' := book[i := a];
    forall b | b in s + {a}
      ensures b != 0 && b in book'
    {
      if b == a {
        assert book'[i] == a;
      } else {
        var j :| 0 <= j < |book| && book[j] == b;
        assert book'[j] == b;
      }
    }
  }

  lemma BookRemove(book: seq<nat>, s: set<nat>, i: nat)
    requires BookMatches(book, s) && i < |book| && book[i] != 0
    ensures BookMatches(book[i := 0], s - {book[i]})
  {
    var book' := book[i := 0];
    forall b | b in s - {book[i]}
      ensures b != 0 && b in book'
    {
      var j :| 0 <= j < |book| && book[j] == b;
      assert book'[j] == b;
    }
  }

  lemma BookDetermines(book: seq<nat>, s: set<nat>, t: set<nat>)
    requires BookMatches(book, s) && BookMatches(book, t)
    ensures s == t
  {
  }

  // ----- The invariant -----

  ghost predicate WellFormed(h: Heap) {
    |h.book| == BOOK_SIZE && Tiled(h.mem, BASE)
  }

  /** The chain tiles the heap and the address book records exactly its live blocks. */
  ghost predicate Inv(h: Heap) {
    WellFormed(h) && BookMatches(h.book, Live(h.mem, BASE))
  }

  // ----- Operations -----

  /** OS_InitMemory on memory of any contents. */
  function InitMemory(m: Memory): (h: Heap) {
    Heap(m[BASE := CLEAR][BASE + 1 := TAIL_SHIFT], seq(BOOK_SIZE, _ => 0))
  }

  /** The split as written: a tail header at n, unless the byte there looks like a state byte. */
  function SplitAsWritten(m: Memory, n: nat): Memory
    requires n < LIMIT
  {
    if IsState(m[n]) then m else m[n := CLEAR][n + 1 := TAIL_SHIFT]
  }

  /** Headers of clear blocks, the largest first, that tile rest bytes from p on. */
  function TileRest(m: Memory, p: nat, rest: nat): Memory
    requires p + rest <= LIMIT
    decreases rest
  {
    if rest == 0 then m
    else
      var k := FloorLog(rest);
      FloorLogSmall(rest);
      TileRest(m[p := CLEAR][p + 1 := k], p + Pow2(k), rest - Pow2(k))
  }

  lemma FloorLogSmall(n: nat)
    requires 0 < n <= LIMIT
    ensures FloorLog(n) < TAIL_SHIFT
  {
    Powers();
    FloorLogBelow(n, TAIL_SHIFT);
  }

  function Place(m: Memory, start: nat, shift: nat): Memory
    requires start < LIMIT && shift < TAIL_SHIFT
  {
    m[start + 1 := shift][start := IN_USE]
  }

  /** The run that a request for a block of size 2^shift gets; NoFit if it is denied. */
  function Choose(m: Memory, shift: nat): Fit
    requires Tiled(m, BASE)
  {
    if Pow2(shift) > MAX_SINGLE_MALLOC then NoFit else Find(m, BASE, 0, Pow2(shift))
  }

  // ----- What the choice guarantees -----

  /** What every fit chosen for size bytes satisfies, in terms of the chain. */
  ghost predicate Chosen(m: Memory, f: Fit, size: nat) {
    && f.Fit?
    && Path(m, BASE, f.start) && ClearPath(m, f.start, f.last) && BASE <= f.start <= f.last
    && f.last < LIMIT && m[f.last] == CLEAR && Tiled(m, f.last)
    && f.total == Next(m, f.last) - f.start
    && f.total >= size >= 4 && f.last + size < LIMIT
  }

  lemma ChoiceFits(m: Memory, shift: nat)
    requires Tiled(m, BASE) && shift >= 2 && Choose(m, shift).Fit?
    ensures Chosen(m, Choose(m, shift), Pow2(shift)) && shift < TAIL_SHIFT
  {
    FindFirst(m, BASE, BASE, Pow2(shift));
    var f := Choose(m, shift);
    ClearIsPath(m, f.start, f.last);
    PathGrows(m, BASE, f.start);
    PathGrows(m, f.start, f.last);
    QuadPow2(shift);
    ShiftSmall(shift);
  }

  lemma ShiftSmall(shift: nat)
    requires Pow2(shift) < LIMIT
    ensures shift < TAIL_SHIFT
  {
    if shift >= TAIL_SHIFT {
      Powers();
      Pow2Monotone(TAIL_SHIFT, shift);
    }
  }

  // ----- Allocation and release -----

  /** The exponent of the block size for val bytes of payload. */
  function ShiftFor(val: int): (shift: nat)
    requires val >= 2
    ensures shift >= 2
    ensures Pow2(shift) >= val + 2 && Pow2(shift - 1) < val + 2
  {
    ThreeNeedsTwo(val + 2);
    CeilLog(val + 2)
  }

  lemma ThreeNeedsTwo(n: nat)
    requires n >= 3
    ensures CeilLog(n) >= 2
  {
  }

  /** Allocation of a block of size 2^shift as written. The second component is the address
      handed out, 0 when the request is denied. */
  function Allocate(h: Heap, shift: nat): (Heap, nat)
    requires WellFormed(h) && shift >= 2
  {
    var f := Choose(h.mem, shift);
    if f.NoFit? then (h, 0)
    else
      ChoiceFits(h.mem, shift);
      var m := SplitAsWritten(h.mem, f.start + Pow2(shift));
      var i := IndexFrom(h.book, 0, 0);
      if i == |h.book| then (Heap(m, h.book), 0)
      else (Heap(Place(m, f.start, shift), h.book[i := f.start]), f.start + 2)
  }

  /** The repaired split: the rest of the run is tiled exactly, by one tail header if the run ends in the tail. */
  function SplitTiled(m: Memory, f: Fit, size: nat): Memory
    requires Chosen(m, f, size)
  {
    if m[f.last + 1] == TAIL_SHIFT then m[f.start + size := CLEAR][f.start + size + 1 := TAIL_SHIFT]
    else
      assert Tiled(m, Next(m, f.last));
      TileRest(m, f.start + size, f.total - size)
  }

  /** Allocation with the split repaired and the free slot of the address book looked up first. */
  function AllocateTiled(h: Heap, shift: nat): (Heap, nat)
    requires WellFormed(h) && shift >= 2
  {
    var f := Choose(h.mem, shift);
    var i := IndexFrom(h.book, 0, 0);
    if f.NoFit? || i == |h.book| then (h, 0)
    else
      ChoiceFits(h.mem, shift);
      (Heap(Place(SplitTiled(h.mem, f, Pow2(shift)), f.start, shift), h.book[i := f.start]), f.start + 2)
  }

  /** OS_Malloc as written. */
  function Malloc(h: Heap, val: int): (Heap, nat)
    requires WellFormed(h) && val < INT_MAX
  {
    if val < 2 then (h, 0) else Allocate(h, ShiftFor(val))
  }

  /** OS_Malloc repaired. */
  function MallocTiled(h: Heap, val: int): (Heap, nat)
    requires WellFormed(h) && val < INT_MAX
  {
    if val < 2 then (h, 0) else AllocateTiled(h, ShiftFor(val))
  }

  /** OS_Malloc, as written or repaired. */
  function Granted(h: Heap, val: int, repaired: bool): (Heap, nat)
    requires WellFormed(h) && val < INT_MAX
  {
    if repaired then MallocTiled(h, val) else Malloc(h, val)
  }

  /** The header address that OS_Free computes; the subtraction wraps around in 32 bits. */
  function HeaderAddress(addr: nat): (base: nat)
    ensures 2 <= addr < MEMORY_SIZE ==> base == addr - 2
    ensures base < MEMORY_SIZE
  {
    (addr - 2) % MEMORY_SIZE
  }

  /** OS_Free. */
  function Free(h: Heap, addr: nat): (Heap, bool)
    requires |h.book| == BOOK_SIZE && addr < MEMORY_SIZE
  {
    var base := HeaderAddress(addr);
    var i := IndexFrom(h.book, base, 0);
    if h.mem[base] != IN_USE || i == |h.book| then (h, false)
    else (Heap(h.mem[base := CLEAR], h.book[i := 0]), true)
  }
}
