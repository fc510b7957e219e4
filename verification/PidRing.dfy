/** The ring buffers of pids that the scheduler keeps in place. */
module PidRing {

  const CAPACITY: nat := 16
  const NOBODY: nat := 0

  /** The cell of the i-th queued pid. */
  function Cell(idx: nat, i: nat): (c: nat)
    requires idx < CAPACITY && i <= CAPACITY
    ensures c < CAPACITY && c == (idx + i) % CAPACITY
  {
    if idx + i < CAPACITY then idx + i else idx + i - CAPACITY
  }

  /** The queued pids, front first, of a ring in these cells. */
  function Queued(cells: seq<nat>, idx: nat, length: nat): (s: seq<nat>)
    requires |cells| == CAPACITY && idx < CAPACITY && length <= CAPACITY
    ensures |s| == length && forall i | 0 <= i < length :: s[i] == cells[Cell(idx, i)]
  {
    seq(length, i requires 0 <= i < length => cells[Cell(idx, i)])
  }

  class PidRing {
    const buf: array<nat>
    var idx: nat
    var length: nat

    ghost predicate Valid()
      reads this
    {
      buf.Length == CAPACITY && idx < CAPACITY && length <= CAPACITY
    }

    ghost function Contents(): (s: seq<nat>)
      requires Valid()
      reads this, buf
      ensures |s| == length
    {
      Queued(buf[..], idx, length)
    }

    constructor ()
      ensures Valid() && fresh(buf) && Contents() == []
    {
      buf := new nat[CAPACITY](_ => NOBODY);
      idx, length := 0, 0;
    }

    method Head() returns (pid: nat)
      requires Valid() && length > 0
      ensures pid == Contents()[0]
    {
      pid := buf[idx];
    }

    method Push(pid: nat)
      requires Valid() && length < CAPACITY
      modifies this`length, buf
      ensures Valid() && Contents() == old(Contents()) + [pid]
    {
      var end := Cell(idx, length);
      buf[end] := pid;
      length := length + 1;
    }

    /** The front leaves; its cell is marked. */
    method Pop()
      requires Valid() && length > 0
      modifies this`idx, this`length, buf
      ensures Valid() && Contents() == old(Contents())[1..]
    {
      buf[idx] := NOBODY;
      idx := Cell(idx, 1);
      length := length - 1;
    }

    /** The front goes to the end, even of a full ring, where both are the same cell. */
    method Rotate()
      requires Valid() && length > 0
      modifies this`idx, buf
      ensures Valid() && Contents() == old(Contents())[1..] + [old(Contents())[0]]
    {
      var end := Cell(idx, length);
      buf[end] := buf[idx];
      idx := Cell(idx, 1);
    }
  }
}
