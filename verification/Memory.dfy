/** memory_copy and memory_set. Pointers are indices into one array, so that overlap is overlap. */
module MemoryRoutines {
  import opened Words

  function Count(nbytes: int): nat {
    if nbytes > 0 then nbytes else 0
  }

  /** The memory after the bytes from low on, of n at source, have been moved to dest, as if
      through a buffer. */
  function Moved(m: seq<u8>, source: nat, dest: nat, n: nat, low: nat): (r: seq<u8>)
    requires source + n <= |m| && dest + n <= |m|
    ensures |r| == |m|
  {
    seq(|m|, k requires 0 <= k < |m| => if dest + low <= k < dest + n then m[k + (source - dest)] else m[k])
  }

  /** Where memory_copy stops: its descending loop as written leaves out index 0. */
  function Lowest(source: nat, dest: nat, toZero: bool): nat {
    if source < dest && !toZero then 1 else 0
  }

  method MemoryCopy(m: array<u8>, source: nat, dest: nat, nbytes: int, toZero: bool)
    requires source + Count(nbytes) <= m.Length && dest + Count(nbytes) <= m.Length
    modifies m
    ensures m[..] == Moved(old(m[..]), source, dest, Count(nbytes), Lowest(source, dest, toZero))
  {
    if source > dest {
      var i := 0;
      while i < nbytes
        invariant 0 <= i <= Count(nbytes)
        invariant m[..] == Moved(old(m[..]), source, dest, i, 0)
      {
        m[dest + i] := m[source + i];
        i := i + 1;
      }
    } else if source < dest {
      var last := if toZero then 0 else 1;
      var i := nbytes - 1;
      while i >= last
        invariant i < Count(nbytes) && (nbytes > 0 ==> last - 1 <= i)
        invariant m[..] == Moved(old(m[..]), source, dest, Count(nbytes), Count(i + 1))
      {
        m[dest + i] := m[source + i];
        i := i - 1;
      }
    }
  }

  /** The range copied to reads what the range copied from read before, and nothing else changes. */
  lemma MovedWhole(m: seq<u8>, source: nat, dest: nat, n: nat)
    requires source + n <= |m| && dest + n <= |m|
    ensures Moved(m, source, dest, n, 0) == m[..dest] + m[source..source + n] + m[dest + n..]
  {
  }

  /** memory_copy moves its bytes whatever the overlap once its last index is 0. As written it does
      so exactly if it does not run downwards, or skips a byte that was right already. */
  lemma CopiesIff(m: seq<u8>, source: nat, dest: nat, nbytes: int, toZero: bool)
    requires source + Count(nbytes) <= |m| && dest + Count(nbytes) <= |m|
    ensures Moved(m, source, dest, Count(nbytes), Lowest(source, dest, toZero)) ==
            m[..dest] + m[source..source + Count(nbytes)] + m[dest + Count(nbytes)..] <==>
            toZero || nbytes <= 0 || source >= dest || m[dest] == m[source]
  {
    var n := Count(nbytes);
    MovedWhole(m, source, dest, n);
    if nbytes > 0 {
      assert Moved(m, source, dest, n, 0)[dest] == m[source];
    }
  }

  lemma WrittenCopySkipsFirstByte()
    ensures Moved([7, 8, 0], 0, 1, 2, Lowest(0, 1, false)) == [7, 8, 8]
    ensures Moved([7, 8, 0], 0, 1, 2, Lowest(0, 1, true)) == [7, 7, 8]
  {
  }

  method MemorySet(m: array<u8>, dest: nat, val: u8, len: nat)
    requires dest + len <= m.Length
    modifies m
    ensures m[..] == old(m[..])[..dest] + seq(len, _ => val) + old(m[..])[dest + len..]
  {
    var left, d := len, dest;
    while left > 0
      invariant left + d == dest + len && dest <= d
      invariant forall k | 0 <= k < m.Length :: m[k] == if dest <= k < d then val else old(m[k])
    {
      left := left - 1;
      m[d] := val;
      d := d + 1;
    }
  }
}
