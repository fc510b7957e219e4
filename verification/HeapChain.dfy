/** The heap as bytes: a chain of blocks, each led by a state byte and a size shift. */
module HeapChain {
  import opened PowersOfTwo
  import opened Words

  const BASE: nat := 0x20_0000
  const STACK: nat := 0x80_0000
  const LIMIT: nat := STACK - 2
  const TAIL_SHIFT: nat := 29
  const MAX_SINGLE_MALLOC: nat := 0x2000_0000
  const IN_USE: u8 := 0xF0
  const CLEAR: u8 := 0x0F
  const MEMORY_SIZE: nat := 0x1_0000_0000

  /** All of the 32-bit address space. */
  type Memory = m: seq<u8> | |m| == MEMORY_SIZE ghost witness seq(MEMORY_SIZE, _ => 0)

  predicate IsState(b: u8) {
    b == IN_USE || b == CLEAR
  }

  /** Address of the header that follows the one at a. */
  function Next(m: Memory, a: nat): (n: nat)
    requires a < LIMIT
    ensures n > a
  {
    a + Pow2(m[a + 1])
  }

  /** A header of a block other than the tail. */
  predicate Inner(m: Memory, a: nat) {
    a < LIMIT && IsState(m[a]) && 2 <= m[a + 1] < TAIL_SHIFT
  }

  /** The chain from a consists of inner blocks and ends in one clear tail below LIMIT. */
  predicate Tiled(m: Memory, a: nat)
    decreases LIMIT - a
  {
    a < LIMIT &&
    if m[a + 1] == TAIL_SHIFT then m[a] == CLEAR
    else Inner(m, a) && Tiled(m, Next(m, a))
  }

  /** The chain from a visits e, by way of inner blocks. */
  predicate Path(m: Memory, a: nat, e: nat)
    decreases e - a
  {
    a == e || (a < e && Inner(m, a) && Path(m, Next(m, a), e))
  }

  /** All blocks of the path from a to e are clear. */
  predicate ClearPath(m: Memory, a: nat, e: nat)
    decreases e - a
  {
    a == e || (a < e && Inner(m, a) && m[a] == CLEAR && ClearPath(m, Next(m, a), e))
  }

  /** Bases of the blocks in use, from a to the tail. */
  ghost function Live(m: Memory, a: nat): (s: set<nat>)
    requires Tiled(m, a)
    ensures forall b | b in s :: a <= b < LIMIT && m[b] == IN_USE
    decreases LIMIT - a
  {
    if m[a + 1] == TAIL_SHIFT then {}
    else (if m[a] == IN_USE then {a} else {}) + Live(m, Next(m, a))
  }

  /** Bases of the blocks in use on the path from a to e. */
  ghost function LiveOn(m: Memory, a: nat, e: nat): (s: set<nat>)
    requires Path(m, a, e)
    ensures forall b | b in s :: a <= b < e && b < LIMIT && m[b] == IN_USE
    decreases e - a
  {
    if a == e then {}
    else (if m[a] == IN_USE then {a} else {}) + LiveOn(m, Next(m, a), e)
  }

  /** Whether w is one of the two header bytes of a block of the chain from a. */
  predicate IsHeader(m: Memory, a: nat, w: nat)
    requires Tiled(m, a)
    decreases LIMIT - a
  {
    w == a || w == a + 1 || (m[a + 1] != TAIL_SHIFT && IsHeader(m, Next(m, a), w))
  }

  /** Whether the byte w belongs to the payload of the live block at b. */
  predicate InPayload(m: Memory, b: nat, w: nat) {
    b < LIMIT && b + 2 <= w < Next(m, b)
  }

  lemma {:induction false} SplitChain(m: Memory, a: nat, e: nat)
    requires Path(m, a, e)
    ensures Tiled(m, a) <==> Tiled(m, e)
    ensures Tiled(m, a) ==> Live(m, a) == LiveOn(m, a, e) + Live(m, e)
    decreases e - a
  {
    if a < e {
      SplitChain(m, Next(m, a), e);
    }
  }

  lemma {:induction false} PathThen(m: Memory, a: nat, b: nat, c: nat)
    requires Path(m, a, b) && Path(m, b, c)
    ensures Path(m, a, c) && LiveOn(m, a, c) == LiveOn(m, a, b) + LiveOn(m, b, c)
    decreases b - a
  {
    if a < b {
      PathThen(m, Next(m, a), b, c);
    }
  }

  /** Two addresses visited by the chain lie on one path. */
  lemma {:induction false} PathBetween(m: Memory, a: nat, b: nat, c: nat)
    requires Path(m, a, b) && Path(m, a, c) && b <= c
    ensures Path(m, b, c)
    decreases b - a
  {
    if a < b {
      PathBetween(m, Next(m, a), b, c);
    }
  }

  /** Headers lie at multiples of four from each other. */
  lemma {:induction false} Aligned(m: Memory, a: nat, e: nat)
    requires Path(m, a, e)
    ensures a <= e && Quad(e - a)
    decreases e - a
  {
    if a < e {
      QuadPow2(m[a + 1]);
      Aligned(m, Next(m, a), e);
      QuadSum(Pow2(m[a + 1]), e - Next(m, a));
    }
  }

  lemma {:induction false} ClearIsPath(m: Memory, a: nat, e: nat)
    requires ClearPath(m, a, e)
    ensures Path(m, a, e) && LiveOn(m, a, e) == {}
    decreases e - a
  {
    if a < e {
      ClearIsPath(m, Next(m, a), e);
    }
  }

  lemma {:induction false} ClearAppend(m: Memory, a: nat, e: nat)
    requires ClearPath(m, a, e) && Inner(m, e) && m[e] == CLEAR
    ensures ClearPath(m, a, Next(m, e))
    decreases e - a
  {
    if a < e {
      ClearAppend(m, Next(m, a), e);
    }
  }

  lemma {:induction false} ClearAt(m: Memory, a: nat, b: nat, e: nat)
    requires ClearPath(m, a, e) && Path(m, a, b) && b < e
    ensures b < LIMIT && m[b] == CLEAR && ClearPath(m, b, e) && ClearPath(m, a, b)
    decreases b - a
  {
    if a < b {
      ClearAt(m, Next(m, a), b, e);
    }
  }

  /** A path reads only the bytes it spans. */
  lemma {:induction false} PathFrame(m: Memory, m': Memory, a: nat, e: nat)
    requires Path(m, a, e)
    requires forall w | a <= w < e && w < MEMORY_SIZE :: m'[w] == m[w]
    ensures Path(m', a, e) && LiveOn(m', a, e) == LiveOn(m, a, e)
    decreases e - a
  {
    if a < e {
      QuadPow2(m[a + 1]);
      PathFrame(m, m', Next(m, a), e);
    }
  }

  /** A chain reads only its header bytes. */
  lemma {:induction false} ChainFrame(m: Memory, m': Memory, a: nat)
    requires Tiled(m, a)
    requires forall w | 0 <= w < MEMORY_SIZE && IsHeader(m, a, w) :: m'[w] == m[w]
    ensures Tiled(m', a) && Live(m', a) == Live(m, a)
    decreases LIMIT - a
  {
    assert IsHeader(m, a, a) && IsHeader(m, a, a + 1);
    if m[a + 1] != TAIL_SHIFT {
      forall w | 0 <= w < MEMORY_SIZE && IsHeader(m, Next(m, a), w)
        ensures m'[w] == m[w]
      {
        assert IsHeader(m, a, w);
      }
      ChainFrame(m, m', Next(m, a));
    }
  }

  lemma {:induction false} HeaderBounds(m: Memory, a: nat, w: nat)
    requires Tiled(m, a) && IsHeader(m, a, w)
    ensures a <= w <= LIMIT
    decreases LIMIT - a
  {
    if w != a && w != a + 1 {
      HeaderBounds(m, Next(m, a), w);
    }
  }

  /** A byte strictly inside a block is no header byte. */
  lemma {:induction false} InsideIsNoHeader(m: Memory, a: nat, b: nat, w: nat)
    requires Tiled(m, a) && Path(m, a, b) && b < LIMIT
    requires b + 2 <= w && (m[b + 1] != TAIL_SHIFT ==> w < Next(m, b))
    ensures !IsHeader(m, a, w)
    decreases b - a
  {
    if a < b {
      PathGrows(m, Next(m, a), b);
      QuadPow2(m[a + 1]);
      InsideIsNoHeader(m, Next(m, a), b, w);
    } else if m[a + 1] != TAIL_SHIFT && IsHeader(m, Next(m, a), w) {
      HeaderBounds(m, Next(m, a), w);
    }
  }

  lemma PathGrows(m: Memory, a: nat, e: nat)
    requires Path(m, a, e)
    ensures a <= e
  {
  }

  /** Live bases are exactly the headers marked in use that the chain visits. */
  lemma {:induction false} LiveVisited(m: Memory, a: nat, b: nat)
    requires Tiled(m, a)
    ensures b in Live(m, a) <==> Path(m, a, b) && Inner(m, b) && m[b] == IN_USE
    decreases LIMIT - a
  {
    if m[a + 1] != TAIL_SHIFT && a != b {
      LiveVisited(m, Next(m, a), b);
    }
  }

  /** Each live block ends below LIMIT and no two live blocks overlap. */
  lemma LiveBlocksDisjoint(m: Memory, b: nat, c: nat)
    requires Tiled(m, BASE) && b in Live(m, BASE)
    ensures Next(m, b) < LIMIT
    ensures c in Live(m, BASE) && b < c ==> Next(m, b) <= c
  {
    LiveVisited(m, BASE, b);
    SplitChain(m, BASE, b);
    assert Tiled(m, Next(m, b));
    if c in Live(m, BASE) && b < c {
      LiveVisited(m, BASE, c);
      PathBetween(m, BASE, b, c);
      PathGrows(m, Next(m, b), c);
    }
  }
}
