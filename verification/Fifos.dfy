/** The bounded FIFOs between processes: ring buffers that drop their oldest element when full. */
module Fifos {

  const FIFOSIZE: nat := 8

  /** A FIFO as a value; a length of -1 marks one that is not open. */
  datatype Fifo = Fifo(length: int, idx: nat, data: seq<int>)

  predicate Open(f: Fifo) {
    0 <= f.length <= FIFOSIZE && |f.data| == FIFOSIZE
  }

  /** The unread elements, oldest first. The index is taken modulo the size, as every access but one does. */
  function Contents(f: Fifo): (s: seq<int>)
    requires Open(f)
    ensures |s| == f.length
  {
    seq(f.length, i requires 0 <= i < f.length => f.data[(f.idx + i) % FIFOSIZE])
  }

  /** OS_Write. As written, the index of a full FIFO grows without wrapping around. */
  function Write(f: Fifo, val: int, wrap: bool): Fifo
    requires Open(f)
  {
    var next := (f.idx + f.length) % FIFOSIZE;
    var data := f.data[next := val];
    if f.length < FIFOSIZE then Fifo(f.length + 1, f.idx, data)
    else Fifo(f.length, if wrap then (f.idx + 1) % FIFOSIZE else f.idx + 1, data)
  }

  datatype Answer = Nothing | Value(val: int) | OutOfBounds

  /** OS_Read: its answer, and the FIFO afterwards. A FIFO that is not open answers like an empty one. */
  function Read(f: Fifo): (Answer, Fifo)
    requires Open(f) || f.length == -1
  {
    if f.length <= 0 then (Nothing, f)
    else
      (if f.idx < FIFOSIZE then Value(f.data[f.idx]) else OutOfBounds,
       Fifo(f.length - 1, (f.idx + 1) % FIFOSIZE, f.data))
  }

  /** What a write does to a bounded queue. */
  function Bounded(s: seq<int>): seq<int> {
    if |s| > FIFOSIZE then s[1..] else s
  }

  lemma ModShift(i: nat, j: nat)
    ensures (i % FIFOSIZE + j) % FIFOSIZE == (i + j) % FIFOSIZE
  {
  }

  /** Within one turn of the ring, different offsets are different cells. */
  lemma CellsDiffer(idx: nat, i: nat, j: nat)
    requires i < j < i + FIFOSIZE
    ensures (idx + i) % FIFOSIZE != (idx + j) % FIFOSIZE
  {
  }

  lemma WriteFree(f: Fifo, val: int, wrap: bool)
    requires Open(f) && f.length < FIFOSIZE
    ensures Open(Write(f, val, wrap)) && Contents(Write(f, val, wrap)) == Contents(f) + [val]
  {
    forall i | 0 <= i < f.length
      ensures Contents(Write(f, val, wrap))[i] == Contents(f)[i]
    {
      CellsDiffer(f.idx, i, f.length);
    }
  }

  lemma WriteFull(f: Fifo, val: int, wrap: bool)
    requires Open(f) && f.length == FIFOSIZE
    ensures Open(Write(f, val, wrap)) && Contents(Write(f, val, wrap)) == Contents(f)[1..] + [val]
  {
    forall i | 0 <= i < FIFOSIZE
      ensures Contents(Write(f, val, wrap))[i] == (Contents(f)[1..] + [val])[i]
    {
      ModShift(f.idx + 1, i);
      if i < FIFOSIZE - 1 {
        CellsDiffer(f.idx, i + 1, FIFOSIZE);
      }
    }
  }

  /** In both forms a write appends the value and drops the oldest one if the FIFO was full. */
  lemma WriteAppends(f: Fifo, val: int, wrap: bool)
    requires Open(f)
    ensures Open(Write(f, val, wrap)) && Contents(Write(f, val, wrap)) == Bounded(Contents(f) + [val])
    ensures wrap && f.idx < FIFOSIZE ==> Write(f, val, wrap).idx < FIFOSIZE
  {
    if f.length < FIFOSIZE {
      WriteFree(f, val, wrap);
    } else {
      WriteFull(f, val, wrap);
    }
  }

  /** A read takes the oldest element exactly if the index has not run past the end of the array. */
  lemma ReadTakesOldestIff(f: Fifo)
    requires Open(f) && f.length > 0
    ensures Open(Read(f).1) && Contents(Read(f).1) == Contents(f)[1..] && Read(f).1.idx < FIFOSIZE
    ensures Read(f).0 == Value(Contents(f)[0]) <==> f.idx < FIFOSIZE
  {
    var s := Contents(Read(f).1);
    forall i | 0 <= i < |s|
      ensures s[i] == Contents(f)[1..][i]
    {
      AfterOldest(f, i);
    }
    OldestAt(f);
    hide Contents;
  }

  /** What comes behind the oldest element moves up by one place. */
  lemma AfterOldest(f: Fifo, i: nat)
    requires Open(f) && i + 1 < f.length
    ensures Contents(Read(f).1)[i] == Contents(f)[i + 1]
  {
    ModShift(f.idx + 1, i);
  }

  lemma OldestAt(f: Fifo)
    requires Open(f) && f.length > 0
    ensures Contents(f)[0] == f.data[f.idx % FIFOSIZE]
    ensures (f.idx + 1) % FIFOSIZE < FIFOSIZE
    ensures f.idx < FIFOSIZE ==> f.idx % FIFOSIZE == f.idx
  {
  }

  // ----- Runs -----

  datatype Op = Put(val: int) | Get

  function Apply(f: Fifo, op: Op, wrap: bool): Fifo
    requires Open(f)
  {
    match op
    case Put(val) => Write(f, val, wrap)
    case Get => Read(f).1
  }

  lemma ApplyOpen(f: Fifo, op: Op, wrap: bool)
    requires Open(f)
    ensures Open(Apply(f, op, wrap))
  {
  }

  /** The FIFO after the operations, from a freshly opened one with any old data. */
  function After(data: seq<int>, ops: seq<Op>, wrap: bool): (f: Fifo)
    requires |data| == FIFOSIZE
    ensures Open(f)
    decreases |ops|
  {
    if ops == [] then Fifo(0, 0, data)
    else
      var f := After(data, ops[..|ops| - 1], wrap);
      ApplyOpen(f, ops[|ops| - 1], wrap);
      Apply(f, ops[|ops| - 1], wrap)
  }

  /** All values written, in order. */
  function Written(ops: seq<Op>): seq<int> {
    if ops == [] then []
    else
      var front := Written(ops[..|ops| - 1]);
      match ops[|ops| - 1]
      case Put(val) => front + [val]
      case Get => front
  }

  /** What has left a FIFO, by being read or displaced, is a prefix of what was written; the contents are the rest. */
  ghost predicate IsSuffix(s: seq<int>, t: seq<int>) {
    |s| <= |t| && s == t[|t| - |s|..]
  }

  /** For any run, in both forms: the contents are the last values written, at most FIFOSIZE of them. */
  lemma {:induction false} ContentsAreSuffix(data: seq<int>, ops: seq<Op>, wrap: bool)
    requires |data| == FIFOSIZE
    ensures IsSuffix(Contents(After(data, ops, wrap)), Written(ops))
    ensures wrap ==> After(data, ops, wrap).idx < FIFOSIZE
    decreases |ops|
  {
    if ops != [] {
      var front := ops[..|ops| - 1];
      var f := After(data, front, wrap);
      ContentsAreSuffix(data, front, wrap);
      match ops[|ops| - 1]
      case Put(val) =>
        WriteAppends(f, val, wrap);
        SuffixGrows(Contents(f), Written(front), val);
      case Get =>
        if f.length > 0 {
          ReadTakesOldestIff(f);
        }
    }
  }

  lemma SuffixGrows(s: seq<int>, t: seq<int>, val: int)
    requires IsSuffix(s, t)
    ensures IsSuffix(s + [val], t + [val])
    ensures IsSuffix((s + [val])[1..], t + [val])
  {
    var k := |t| - |s|;
    assert (t + [val])[k..] == t[k..] + [val];
    assert (t + [val])[k + 1..] == (t[k..] + [val])[1..];
  }

  /** A read after any run answers with the oldest value neither read nor displaced, or with nothing if there
      is none; in the code as written exactly as long as the index has not run past the end. */
  lemma ReadAnswersOldest(data: seq<int>, ops: seq<Op>, wrap: bool)
    requires |data| == FIFOSIZE
    ensures var f := After(data, ops, wrap);
            var left := |Written(ops)| - |Contents(f)|;
            && 0 <= left <= |Written(ops)|
            && (Read(f).0 == (if left == |Written(ops)| then Nothing else Value(Written(ops)[left]))
                <==> left == |Written(ops)| || f.idx < FIFOSIZE)
            && (wrap ==> f.idx < FIFOSIZE)
  {
    ContentsAreSuffix(data, ops, wrap);
    var f := After(data, ops, wrap);
    if f.length > 0 {
      ReadTakesOldestIff(f);
    }
  }

  function Puts(n: nat): (ops: seq<Op>)
    ensures |ops| == n
  {
    if n == 0 then [] else Puts(n - 1) + [Put(n)]
  }

  /** n writes in a row leave the index of the written code at n - FIFOSIZE. */
  lemma {:induction false} PutsAdvance(data: seq<int>, n: nat)
    requires |data| == FIFOSIZE
    ensures var f := After(data, Puts(n), false);
            if n <= FIFOSIZE then f.length == n && f.idx == 0 else f.length == FIFOSIZE && f.idx == n - FIFOSIZE
  {
    if n > 0 {
      PutsAdvance(data, n - 1);
      assert Puts(n)[..n - 1] == Puts(n - 1);
    }
  }

  /** Sixteen writes and a read: the written code reads outside its array. */
  lemma SixteenWritesThenRead(data: seq<int>)
    requires |data| == FIFOSIZE
    ensures Read(After(data, Puts(16), false)).0 == OutOfBounds
  {
    PutsAdvance(data, 16);
  }

  // ----- In place -----

  class FifoBuf {
    var length: int
    var idx: nat
    const data: array<int>

    constructor ()
      ensures data.Length == FIFOSIZE && fresh(data) && View() == Fifo(-1, 0, seq(FIFOSIZE, _ => 0))
    {
      length, idx, data := -1, 0, new int[FIFOSIZE](_ => 0);
      new;
      assert data[..] == seq(FIFOSIZE, _ => 0);
    }

    /** What OS_Init does to each FIFO. */
    method Reset()
      requires data.Length == FIFOSIZE
      modifies this, data
      ensures View() == Fifo(-1, 0, seq(FIFOSIZE, _ => 0))
    {
      for i := 0 to FIFOSIZE
        invariant forall j | 0 <= j < i :: data[j] == 0
      {
        data[i] := 0;
      }
      idx, length := 0, -1;
      assert data[..] == seq(FIFOSIZE, _ => 0);
    }

    ghost function View(): Fifo
      reads this, data
    {
      Fifo(length, idx, data[..])
    }

    /** The body of OS_Write. */
    method Put(val: int)
      requires Open(View())
      modifies this, data
      ensures View() == Write(old(View()), val, false)
    {
      var next := (idx + length) % FIFOSIZE;
      if length < FIFOSIZE {
        length := length + 1;
      } else {
        idx := idx + 1;
      }
      data[next] := val;
    }

    /** The body of OS_Read, where the index is within the array. */
    method Take() returns (ok: bool, val: int)
      requires (Open(View()) && (length > 0 ==> idx < FIFOSIZE)) || length == -1
      modifies this
      ensures View() == Read(old(View())).1
      ensures Read(old(View())).0 == if ok then Value(val) else Nothing
    {
      if length > 0 {
        val := data[idx];
        idx := (idx + 1) % FIFOSIZE;
        length := length - 1;
        ok := true;
      } else {
        ok, val := false, 0;
      }
    }
  }
}
