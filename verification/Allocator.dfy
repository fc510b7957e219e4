/** The allocator as the kernel runs it: in place, on the bytes of memory and the address book. */
module Allocator {
  import opened PowersOfTwo
  import opened Bits
  import opened HeapChain
  import opened HeapSearch
  import opened HeapModel
  import opened Words

  lemma ShrFindsExponent(k: nat, i: nat)
    requires i <= k
    ensures Shr(Pow2(k), i) == 1 <==> i == k
  {
    ShrPow2(k, i);
  }

  /** What one round of the walk does to the search. */
  lemma FindStep(m: Memory, cur: nat, total: nat, size: nat)
    requires Tiled(m, cur) && total <= cur && size <= MAX_SINGLE_MALLOC
    ensures IsState(m[cur])
    ensures m[cur] == IN_USE ==> Tiled(m, Next(m, cur)) && Find(m, cur, total, size) == Find(m, Next(m, cur), 0, size)
    ensures m[cur] == CLEAR && cur + size >= LIMIT ==> Find(m, cur, total, size).NoFit?
    ensures m[cur] == CLEAR && cur + size < LIMIT && total + Pow2(m[cur + 1]) >= size ==>
              Find(m, cur, total, size) == Fit(cur - total, cur, total + Pow2(m[cur + 1]))
    ensures m[cur] == CLEAR && cur + size < LIMIT && total + Pow2(m[cur + 1]) < size ==>
              && Tiled(m, Next(m, cur))
              && Find(m, cur, total, size) == Find(m, Next(m, cur), total + Pow2(m[cur + 1]), size)
  {
    Powers();
  }

  class Allocator {
    const mem: array<u8>
    const book: array<nat>

    constructor (memory: array<u8>)
      requires memory.Length == MEMORY_SIZE
      ensures Valid() && mem == memory && fresh(book)
    {
      mem := memory;
      book := new nat[BOOK_SIZE];
    }

    ghost predicate Valid() {
      mem.Length == MEMORY_SIZE && book.Length == BOOK_SIZE && mem as object != book as object
    }

    ghost function State(): Heap
      requires Valid()
      reads mem, book
    {
      Heap(mem[..], book[..])
    }

    method InitMemory()
      requires Valid()
      modifies mem, book
      ensures State() == HeapModel.InitMemory(old(mem[..]))
    {
      for i := 0 to BOOK_SIZE
        invariant mem[..] == old(mem[..])
        invariant forall j | 0 <= j < i :: book[j] == 0
      {
        book[i] := 0;
      }
      mem[BASE] := CLEAR;
      mem[BASE + 1] := TAIL_SHIFT;
      assert book[..] == seq(BOOK_SIZE, _ => 0);
    }

    /** Looks for a free slot of the book and enters start there. As in the source, the walk goes on
        after the slot is found unless the split has already been decided. */
    method EnterInBook(start: nat, n: nat, decided: bool) returns (slot: int)
      requires Valid() && start != 0
      modifies book
      ensures var i := IndexFrom(old(book[..]), 0, 0);
              if i == BOOK_SIZE then slot == -1 && book[..] == old(book[..])
              else slot == i && book[..] == old(book[..])[i := start]
    {
      slot := -1;
      var shouldSetNext := decided;
      ghost var was := book[..];
      var i := 0;
      while i < BOOK_SIZE
        invariant 0 <= i <= BOOK_SIZE
        invariant slot == -1 ==> book[..] == was && IndexFrom(was, 0, 0) == IndexFrom(was, 0, i)
        invariant slot != -1 ==> 0 <= slot < BOOK_SIZE && slot == IndexFrom(was, 0, 0) && book[..] == was[slot := start]
      {
        if book[i] != 0 {
          if book[i] == n {
            shouldSetNext := true;
          }
        } else if slot == -1 {
          slot := i;
          book[i] := start;
          if shouldSetNext {
            break;
          }
        }
        i := i + 1;
      }
    }

    /** Carves a block of size bytes from the run at start: the search for the exponent, the split,
        the entry in the book and the two header bytes. */
    method Carve(start: nat, size: nat, ghost shift: nat) returns (a: nat)
      requires Valid() && BASE <= start && 2 <= shift < TAIL_SHIFT && size == Pow2(shift) && start + size < LIMIT
      modifies mem, book
      ensures var m := SplitAsWritten(old(mem[..]), start + size);
              var i := IndexFrom(old(book[..]), 0, 0);
              if i == BOOK_SIZE then a == 0 && mem[..] == m && book[..] == old(book[..])
              else a == start + 2 && mem[..] == Place(m, start, shift) && book[..] == old(book[..])[i := start]
    {
      var ii := 0;
      while Shr(size, ii) != 1
        invariant 0 <= ii <= shift
        invariant mem[..] == old(mem[..]) && book[..] == old(book[..])
        decreases shift - ii
      {
        ShrFindsExponent(shift, ii);
        ii := ii + 1;
      }
      ShrFindsExponent(shift, ii);
      var n := start + size;
      var shouldSetNext := !IsState(mem[n]);
      if shouldSetNext {
        mem[n] := CLEAR;
        mem[n + 1] := TAIL_SHIFT;
      }
      ghost var m := mem[..];
      assert m == SplitAsWritten(old(mem[..]), n);
      var slot := EnterInBook(start, n, shouldSetNext);
      assert mem[..] == m;
      if slot == -1 {
        return 0;
      }
      mem[start + 1] := ii;
      mem[start] := IN_USE;
      assert mem[..] == Place(m, start, shift);
      return start + 2;
    }

    /** OS_Malloc. */
    method Malloc(val: int) returns (a: nat)
      requires Valid() && WellFormed(State()) && INT_MIN <= val < INT_MAX
      modifies mem, book
      ensures (State(), a) == HeapModel.Malloc(old(State()), val)
    {
      if val < 2 {
        return 0;
      }
      var size: nat := val + 1;
      size := Or(size, Shr(size, 1));
      size := Or(size, Shr(size, 2));
      size := Or(size, Shr(size, 4));
      size := Or(size, Shr(size, 8));
      size := Or(size, Shr(size, 16));
      size := size + 1;
      RoundUp(val);
      ghost var shift := ShiftFor(val);
      assert size == Pow2(shift);
      if size > MAX_SINGLE_MALLOC {
        return 0;
      }
      a := Walk(size, shift);
    }

    /** The first-fit walk of OS_Malloc. */
    method Walk(size: nat, ghost shift: nat) returns (a: nat)
      requires Valid() && WellFormed(State()) && 2 <= shift && size == Pow2(shift) && size <= MAX_SINGLE_MALLOC
      modifies mem, book
      ensures (State(), a) == Allocate(old(State()), shift)
    {
      hide Pow2, Find, Path, ClearPath, Place, SplitAsWritten;
      ghost var m := mem[..];
      var total := 0;
      var current := BASE;
      while current < LIMIT
        invariant BASE <= current && 0 <= total <= current - BASE
        invariant mem[..] == m && book[..] == old(book[..])
        invariant current < LIMIT ==> Tiled(m, current) && Find(m, current, total, size) == Choose(m, shift)
        invariant current >= LIMIT ==> Choose(m, shift).NoFit?
        decreases LIMIT - current
      {
        var space := Pow2(mem[current + 1]);
        FindStep(m, current, total, size);
        if mem[current] == IN_USE {
          current := current + space;
          total := 0;
        } else if mem[current] == CLEAR {
          total := total + space;
          if current + size >= LIMIT {
            return 0;
          }
          if total >= size {
            current := current - (total - space);
            ChoiceFits(m, shift);
            a := Carve(current, size, shift);
            return;
          } else {
            current := current + space;
          }
        } else {
          assert false;
        }
      }
      return 0;
    }

    /** OS_Free. */
    method Free(addr: nat) returns (ok: bool)
      requires Valid() && addr < MEMORY_SIZE
      modifies mem, book
      ensures (State(), ok) == HeapModel.Free(old(State()), addr)
    {
      var base := HeaderAddress(addr);
      if mem[base] != IN_USE {
        return false;
      }
      var inBook := false;
      ghost var was := book[..];
      var i := 0;
      while i < BOOK_SIZE
        invariant 0 <= i <= BOOK_SIZE && !inBook
        invariant mem[..] == old(mem[..]) && book[..] == was
        invariant IndexFrom(was, base, 0) == IndexFrom(was, base, i)
      {
        if book[i] == base {
          inBook := true;
          book[i] := 0;
          break;
        }
        i := i + 1;
      }
      if !inBook {
        return false;
      }
      mem[base] := CLEAR;
      return true;
    }
  }
}
