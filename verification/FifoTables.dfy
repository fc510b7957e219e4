/** The table of all FIFOs: how handles are issued, and that FIFOs do not disturb each other. */
module FifoTables {
  import opened Fifos

  const MAXFIFO: nat := 16
  const INVALIDFIFO: nat := 0

  /** get_fifo: whether it accepts the handle. As written it rejects the last one. */
  predicate Accepted(handle: nat, inclusive: bool) {
    handle != INVALIDFIFO && if inclusive then handle <= MAXFIFO else handle < MAXFIFO
  }

  /** Exactly the handles that can be issued are accepted, as written except for the last one. */
  lemma AcceptedIff(handle: nat, inclusive: bool)
    ensures Accepted(handle, inclusive) <==> 1 <= handle <= 16 && (inclusive || handle != 16)
  {
  }

  /** OS_InitFiFo, from FIFO i on: the table afterwards, and the handle. */
  function Opened(table: seq<Fifo>, i: nat): (r: (seq<Fifo>, nat))
    requires i <= |table|
    ensures |r.0| == |table|
    decreases |table| - i
  {
    if i == |table| then (table, INVALIDFIFO)
    else if table[i].length == -1 then (table[i := table[i].(length := 0)], i + 1)
    else Opened(table, i + 1)
  }

  /** The first FIFO that is not open is opened empty, and its handle is one more than its index. Everything
      else in the table stays, and all of it if every FIFO is open. */
  lemma {:induction false} OpenedIs(table: seq<Fifo>, i: nat)
    requires i <= |table|
    ensures var (table', handle) := Opened(table, i);
            if handle == 0 then table' == table && forall j | i <= j < |table| :: table[j].length != -1
            else
              && i < handle <= |table| && table[handle - 1].length == -1
              && (forall j | i <= j < handle - 1 :: table[j].length != -1)
              && (forall j | 0 <= j < |table| && j != handle - 1 :: table'[j] == table[j])
              && table'[handle - 1] == Fifo(0, table[handle - 1].idx, table[handle - 1].data)
    decreases |table| - i
  {
    if i < |table| && table[i].length != -1 {
      OpenedIs(table, i + 1);
    }
  }

  // ----- Runs -----

  datatype TableOp = OpenFifo | On(handle: nat, op: Op)

  /** No FIFO is open yet. */
  predicate Closed(table: seq<Fifo>) {
    && |table| == MAXFIFO
    && forall j | 0 <= j < MAXFIFO ::
         table[j].length == -1 && table[j].idx == 0 && |table[j].data| == FIFOSIZE
  }

  /** An access goes by a handle that is accepted, and a write goes to an open FIFO. */
  predicate MayApply(table: seq<Fifo>, op: TableOp, inclusive: bool) {
    op.On? ==>
      && Accepted(op.handle, inclusive) && op.handle <= |table|
      && (Fifos.Open(table[op.handle - 1]) || (op.op.Get? && table[op.handle - 1].length == -1))
  }

  function TableApply(table: seq<Fifo>, op: TableOp, wrap: bool): (r: seq<Fifo>)
    requires MayApply(table, op, true)
    ensures |r| == |table|
  {
    match op
    case OpenFifo => Opened(table, 0).0
    case On(handle, Put(val)) => table[handle - 1 := Write(table[handle - 1], val, wrap)]
    case On(handle, Get) => table[handle - 1 := Read(table[handle - 1]).1]
  }

  /** The tables of a run that starts with all FIFOs closed. */
  ghost predicate TableRun(tables: seq<seq<Fifo>>, ops: seq<TableOp>, wrap: bool) {
    && |tables| == |ops| + 1 && Closed(tables[0])
    && forall i | 0 <= i < |ops| ::
         MayApply(tables[i], ops[i], true) && tables[i + 1] == TableApply(tables[i], ops[i], wrap)
  }

  /** How often OS_InitFiFo was called. */
  function Opens(ops: seq<TableOp>): nat {
    if ops == [] then 0 else Opens(ops[..|ops| - 1]) + if ops[|ops| - 1].OpenFifo? then 1 else 0
  }

  /** The accesses through one handle. */
  function Through(ops: seq<TableOp>, handle: nat): seq<Op> {
    if ops == [] then []
    else
      var front := Through(ops[..|ops| - 1], handle);
      match ops[|ops| - 1]
      case OpenFifo => front
      case On(h, op) => if h == handle then front + [op] else front
  }

  /** Reads only. */
  predicate NoPuts(ops: seq<Op>) {
    forall i | 0 <= i < |ops| :: ops[i].Get?
  }

  /** FIFO j of the table is open if at least j + 1 handles have been issued, and then holds what the
      accesses through its own handle made of it. Before, it can only have been read, in vain. */
  ghost predicate FifoIs(first: seq<Fifo>, table: seq<Fifo>, ops: seq<TableOp>, wrap: bool, j: nat)
    requires j < |first| == |table| && |first[j].data| == FIFOSIZE
  {
    if j < Opens(ops) then table[j] == After(first[j].data, Through(ops, j + 1), wrap)
    else table[j] == first[j] && NoPuts(Through(ops, j + 1))
  }

  lemma OpenIsOpen(table: seq<Fifo>, first: seq<Fifo>, ops: seq<TableOp>, wrap: bool)
    requires |table| == MAXFIFO && Closed(first)
    requires forall j | 0 <= j < MAXFIFO :: FifoIs(first, table, ops, wrap, j)
    ensures forall j | 0 <= j < MAXFIFO :: table[j].length != -1 <==> j < Opens(ops)
    ensures forall j | 0 <= j < MAXFIFO :: Fifos.Open(table[j]) <==> j < Opens(ops)
  {
    forall j | 0 <= j < MAXFIFO
      ensures (table[j].length != -1 <==> j < Opens(ops)) && (Fifos.Open(table[j]) <==> j < Opens(ops))
    {
      assert FifoIs(first, table, ops, wrap, j);
    }
  }

  /** The next handle that is issued. */
  lemma NextHandle(table: seq<Fifo>, n: nat)
    requires |table| == MAXFIFO && forall j | 0 <= j < MAXFIFO :: table[j].length != -1 <==> j < n
    ensures Opened(table, 0).1 == if n < MAXFIFO then n + 1 else INVALIDFIFO
  {
    OpenedIs(table, 0);
    if n < MAXFIFO {
      assert table[n].length == -1;
    }
  }

  lemma TableStep(first: seq<Fifo>, table: seq<Fifo>, ops: seq<TableOp>, op: TableOp, wrap: bool, j: nat)
    requires |table| == MAXFIFO && Closed(first) && j < MAXFIFO && MayApply(table, op, true)
    requires forall l | 0 <= l < MAXFIFO :: FifoIs(first, table, ops, wrap, l)
    ensures FifoIs(first, TableApply(table, op, wrap), ops + [op], wrap, j)
  {
    hide After;
    OpenIsOpen(table, first, ops, wrap);
    assert (ops + [op])[..|ops|] == ops;
    match op
    case OpenFifo =>
      OpenedIs(table, 0);
      NextHandle(table, Opens(ops));
      assert FifoIs(first, table, ops, wrap, j);
      if j == Opens(ops) {
        AfterReads(first[j].data, Through(ops, j + 1), wrap);
      }
    case On(handle, o) =>
      assert FifoIs(first, table, ops, wrap, j);
      if handle == j + 1 {
        AfterOne(first[j].data, Through(ops, j + 1), o, wrap);
      }
  }

  lemma {:induction false} AfterReads(data: seq<int>, ops: seq<Op>, wrap: bool)
    requires |data| == FIFOSIZE && NoPuts(ops)
    ensures After(data, ops, wrap) == Fifo(0, 0, data)
    decreases |ops|
  {
    if ops != [] {
      AfterReads(data, ops[..|ops| - 1], wrap);
    }
  }

  lemma AfterOne(data: seq<int>, ops: seq<Op>, op: Op, wrap: bool)
    requires |data| == FIFOSIZE
    ensures After(data, ops + [op], wrap) == Apply(After(data, ops, wrap), op, wrap)
  {
    assert (ops + [op])[..|ops|] == ops;
  }

  /** In every state of every run a FIFO holds what the accesses through its own handle made of it, from
      empty on; opening and using other FIFOs does not show. */
  lemma {:induction false} FifosAreApart(tables: seq<seq<Fifo>>, ops: seq<TableOp>, wrap: bool, i: nat)
    requires TableRun(tables, ops, wrap) && i <= |ops|
    ensures |tables[i]| == MAXFIFO
    ensures forall j | 0 <= j < MAXFIFO :: FifoIs(tables[0], tables[i], ops[..i], wrap, j)
  {
    hide FifoIs, TableApply;
    if i == 0 {
      NothingYet(tables[0], wrap);
    } else {
      FifosAreApart(tables, ops, wrap, i - 1);
      assert tables[i - 1 + 1] == TableApply(tables[i - 1], ops[i - 1], wrap);
      assert ops[..i] == ops[..i - 1] + [ops[i - 1]];
      forall j | 0 <= j < MAXFIFO
        ensures FifoIs(tables[0], tables[i], ops[..i], wrap, j)
      {
        TableStep(tables[0], tables[i - 1], ops[..i - 1], ops[i - 1], wrap, j);
      }
    }
  }

  lemma NothingYet(first: seq<Fifo>, wrap: bool)
    requires Closed(first)
    ensures forall j | 0 <= j < MAXFIFO :: FifoIs(first, first, [], wrap, j)
  {
  }

  /** Handles are issued in order, 1 to MAXFIFO, and then INVALIDFIFO for ever, whatever is written and read
      in between. */
  lemma HandlesInOrder(tables: seq<seq<Fifo>>, ops: seq<TableOp>, wrap: bool, i: nat)
    requires TableRun(tables, ops, wrap) && i < |ops| && ops[i].OpenFifo?
    ensures Opened(tables[i], 0).1 == if Opens(ops[..i]) < MAXFIFO then Opens(ops[..i]) + 1 else INVALIDFIFO
  {
    hide FifoIs;
    FifosAreApart(tables, ops, wrap, i);
    OpenIsOpen(tables[i], tables[0], ops[..i], wrap);
    NextHandle(tables[i], Opens(ops[..i]));
  }

  /** In every run a read through a handle answers with the oldest value that was written through the same
      handle and neither read nor displaced, or with nothing if there is none; as written exactly as long as
      the index has not run past the end. */
  lemma ReadIsOwn(tables: seq<seq<Fifo>>, ops: seq<TableOp>, wrap: bool, i: nat, handle: nat)
    requires TableRun(tables, ops, wrap) && i <= |ops| && 1 <= handle <= MAXFIFO && handle <= Opens(ops[..i])
    ensures |tables[i]| == MAXFIFO && Fifos.Open(tables[i][handle - 1])
    ensures var f := tables[i][handle - 1];
            var all := Written(Through(ops[..i], handle));
            var left := |all| - |Contents(f)|;
            && 0 <= left <= |all|
            && (Read(f).0 == (if left == |all| then Nothing else Value(all[left]))
                <==> left == |all| || f.idx < FIFOSIZE)
            && (wrap ==> f.idx < FIFOSIZE)
  {
    FifosAreApart(tables, ops, wrap, i);
    assert FifoIs(tables[0], tables[i], ops[..i], wrap, handle - 1);
    hide After, Read, Contents, Written, Through, TableApply, MayApply;
    ReadAnswersOldest(tables[0][handle - 1].data, Through(ops[..i], handle), wrap);
  }

  // ----- In place -----

  class FifoTable {
    const bufs: array<FifoBuf>

    constructor (bufs: array<FifoBuf>)
      requires bufs.Length == MAXFIFO
      ensures this.bufs == bufs
    {
      this.bufs := bufs;
    }

    ghost predicate Valid()
      reads bufs
    {
      && bufs.Length == MAXFIFO
      && (forall i | 0 <= i < MAXFIFO :: bufs[i].data.Length == FIFOSIZE)
      && (forall i, j | 0 <= i < j < MAXFIFO :: bufs[i] != bufs[j] && bufs[i].data != bufs[j].data)
    }

    ghost function Repr(): set<object>
      requires bufs.Length == MAXFIFO
      reads bufs
    {
      (set i | 0 <= i < MAXFIFO :: bufs[i] as object) + (set i | 0 <= i < MAXFIFO :: bufs[i].data as object)
    }

    ghost function View(): (table: seq<Fifo>)
      requires Valid()
      reads bufs, Repr()
      ensures |table| == MAXFIFO && forall i | 0 <= i < MAXFIFO :: table[i] == bufs[i].View()
    {
      seq(MAXFIFO, i requires 0 <= i < MAXFIFO && Valid() reads bufs, Repr() => bufs[i].View())
    }

    /** OS_Init, as far as FIFOs are concerned. */
    method Init()
      requires Valid()
      modifies Repr()
      ensures Valid() && forall i | 0 <= i < MAXFIFO :: View()[i] == Fifo(-1, 0, seq(FIFOSIZE, _ => 0))
    {
      for i := 0 to MAXFIFO
        invariant forall j | 0 <= j < i :: bufs[j].View() == Fifo(-1, 0, seq(FIFOSIZE, _ => 0))
      {
        bufs[i].Reset();
      }
    }

    /** OS_InitFiFo. The FIFO that it opens keeps its index and its cells, and the other FIFOs stay. */
    method InitFifo() returns (handle: nat)
      requires Valid()
      modifies set i | 0 <= i < MAXFIFO :: bufs[i]
      ensures Valid() && (View(), handle) == Opened(old(View()), 0)
      ensures forall j | 0 <= j < MAXFIFO && j != handle - 1 :: View()[j] == old(View()[j])
      ensures handle != INVALIDFIFO ==>
                handle <= MAXFIFO && View()[handle - 1] == old(View()[handle - 1]).(length := 0)
      ensures handle != INVALIDFIFO ==> (Accepted(handle, false) <==> handle != MAXFIFO) && Accepted(handle, true)
    {
      for i := 0 to MAXFIFO
        invariant Opened(old(View()), 0) == Opened(old(View()), i)
        invariant View() == old(View())
      {
        if bufs[i].length == -1 {
          bufs[i].length := 0;
          assert View() == old(View())[i := old(View())[i].(length := 0)];
          return i + 1;
        }
      }
      return INVALIDFIFO;
    }

    /** OS_Write. It aborts, which the result says, on a handle that get_fifo rejects. */
    method WriteTo(handle: nat, val: int) returns (ok: bool)
      requires Valid() && (Accepted(handle, false) ==> Fifos.Open(View()[handle - 1]))
      modifies Repr()
      ensures Valid() && (ok <==> 1 <= handle < MAXFIFO)
      ensures View() == if ok then TableApply(old(View()), On(handle, Put(val)), false) else old(View())
    {
      if handle == INVALIDFIFO || handle >= MAXFIFO {
        return false;
      }
      bufs[handle - 1].Put(val);
      assert View() == old(View())[handle - 1 := Write(old(View())[handle - 1], val, false)];
      return true;
    }

    /** OS_Read, where the index is within the array. */
    method ReadFrom(handle: nat) returns (ok: bool, answer: Answer)
      requires Valid() && (Accepted(handle, false) ==>
                 || View()[handle - 1].length == -1
                 || (&& Fifos.Open(View()[handle - 1])
                     && (View()[handle - 1].length > 0 ==> View()[handle - 1].idx < FIFOSIZE)))
      modifies Repr()
      ensures Valid() && (ok <==> 1 <= handle < MAXFIFO)
      ensures View() == if ok then TableApply(old(View()), On(handle, Get), false) else old(View())
      ensures ok ==> answer == Read(old(View())[handle - 1]).0
    {
      if handle == INVALIDFIFO || handle >= MAXFIFO {
        return false, Nothing;
      }
      var done, val := bufs[handle - 1].Take();
      assert View() == old(View())[handle - 1 := Read(old(View())[handle - 1]).1];
      return true, if done then Value(val) else Nothing;
    }
  }
}
