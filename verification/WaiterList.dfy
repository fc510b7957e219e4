/** The list of processes that wait for a semaphore, and its cleanup. Nodes whose memory is given back are
    collected in freed; they are not handed out again. */
module WaiterList {
  import opened Sequences

  class Node {
    var next: Node?
    var pid: nat
    var valid: bool

    constructor (pid: nat)
      ensures next == null && this.pid == pid && valid
    {
      this.next, this.pid, this.valid := null, pid, true;
    }
  }

  ghost function At(spine: seq<Node>, i: nat): Node? {
    if i < |spine| then spine[i] else null
  }

  ghost function Last(spine: seq<Node>): Node? {
    if |spine| == 0 then null else spine[|spine| - 1]
  }

  /** From position i on, each node of spine points to its successor, and the last one to end. */
  ghost predicate Chain(spine: seq<Node>, i: nat, end: Node?)
    reads spine
  {
    forall j {:trigger spine[j].next} | i <= j < |spine| ::
      spine[j].next == if j + 1 < |spine| then spine[j + 1] else end
  }

  /** The nodes reachable from head are exactly those of spine, in this order. */
  ghost predicate Linked(head: Node?, spine: seq<Node>)
    reads spine
  {
    Distinct(spine) && head == At(spine, 0) && Chain(spine, 0, null)
  }

  /** The valid flags of the nodes. */
  ghost function Flags(spine: seq<Node>): (f: seq<bool>)
    reads spine
    ensures |f| == |spine| && forall i | 0 <= i < |spine| :: f[i] == spine[i].valid
  {
    if |spine| == 0 then [] else Flags(spine[..|spine| - 1]) + [spine[|spine| - 1].valid]
  }

  /** Those of the first i nodes whose flag is as given, in order. */
  ghost function Select(spine: seq<Node>, flags: seq<bool>, valid: bool, i: nat): (s: seq<Node>)
    requires |flags| == |spine| && i <= |spine|
    ensures i == 0 ==> s == []
    ensures forall n | n in s :: n in spine[..i]
  {
    if i == 0 then []
    else
      var front := Select(spine, flags, valid, i - 1);
      if flags[i - 1] == valid then front + [spine[i - 1]] else front
  }

  lemma NotBefore(spine: seq<Node>, i: nat)
    requires Distinct(spine) && i < |spine|
    ensures spine[i] !in spine[..i]
  {
  }

  lemma {:induction false} SelectDistinct(spine: seq<Node>, flags: seq<bool>, valid: bool, i: nat)
    requires Distinct(spine) && |flags| == |spine| && i <= |spine|
    ensures Distinct(Select(spine, flags, valid, i))
  {
    if i > 0 {
      SelectDistinct(spine, flags, valid, i - 1);
      NotBefore(spine, i - 1);
    }
  }

  lemma {:induction false} Selected(spine: seq<Node>, flags: seq<bool>, valid: bool, i: nat)
    requires Distinct(spine) && |flags| == |spine| && i <= |spine|
    ensures forall j | 0 <= j < i :: spine[j] in Select(spine, flags, valid, i) <==> flags[j] == valid
  {
    if i > 0 {
      Selected(spine, flags, valid, i - 1);
      NotBefore(spine, i - 1);
    }
  }

  lemma SelectNext(spine: seq<Node>, flags: seq<bool>, valid: bool, i: nat)
    requires |flags| == |spine| && i < |spine|
    ensures Select(spine, flags, valid, i + 1) ==
            Select(spine, flags, valid, i) + if flags[i] == valid then [spine[i]] else []
  {
  }

  class WaitQueue {
    var head: Node?
    var tail: Node?

    constructor ()
      ensures head == null && tail == null
    {
      head, tail := null, null;
    }

    /** Head and tail fit the nodes of spine. */
    ghost predicate Fits(spine: seq<Node>)
      reads this, spine
    {
      Linked(head, spine) && tail == Last(spine)
    }

    /** The part of OS_Wait that puts a process in line. */
    method Enqueue(pid: nat, ghost spine: seq<Node>) returns (node: Node)
      requires Fits(spine)
      modifies this, spine
      ensures fresh(node) && node.pid == pid && node.valid
      ensures Fits(spine + [node])
      ensures forall n | n in spine :: n.valid == old(n.valid) && n.pid == old(n.pid)
    {
      node := new Node(pid);
      if tail != null {
        tail.next := node;
      } else {
        head := node;
      }
      tail := node;
    }

    /** Takes the node at position i out of the list, behind the kept nodes. */
    method Unlink(prev: Node?, curr: Node, ghost spine: seq<Node>, ghost kept: seq<Node>, ghost i: nat)
      returns (next: Node?)
      requires Distinct(spine) && i < |spine| && curr == spine[i]
      requires forall j {:trigger spine[j].next} | i <= j < |spine| :: spine[j].next == At(spine, j + 1)
      requires Distinct(kept) && (forall n | n in kept :: n in spine[..i]) && prev == Last(kept)
      requires if |kept| == 0 then head == curr else head == kept[0]
      requires Chain(kept, 0, curr)
      modifies this`head, (set n | n in kept)`next
      ensures next == At(spine, i + 1)
      ensures forall j {:trigger spine[j].next} | i < j < |spine| :: spine[j].next == At(spine, j + 1)
      ensures if |kept| == 0 then head == next else head == kept[0]
      ensures Chain(kept, 0, next)
    {
      NotBefore(spine, i);
      if prev != null {
        assert prev in kept && prev in spine[..i];
        ghost var m :| 0 <= m < i && spine[m] == prev;
        assert forall j | 0 <= j < |kept| - 1 :: kept[j] != prev;
        prev.next := curr.next;
        next := prev.next;
      } else {
        head := curr.next;
        next := head;
      }
    }

    /** The loop of cleanup_semaphore_buf. It ends on every acyclic list. */
    method Sweep(ghost spine: seq<Node>) returns (last: Node?, ghost freed: seq<Node>)
      requires Linked(head, spine)
      modifies this`head, (set n | n in spine)`next
      ensures var flags := old(Flags(spine));
              && Linked(head, Select(spine, flags, true, |spine|))
              && last == Last(Select(spine, flags, true, |spine|))
              && freed == Select(spine, flags, false, |spine|)
    {
      hide Select, Flags;
      ghost var flags := Flags(spine);
      var curr := head;
      var prev: Node? := null;
      ghost var i := 0;
      ghost var kept: seq<Node> := [];
      freed := [];
      while curr != null
        invariant 0 <= i <= |spine| && curr == At(spine, i)
        invariant forall j {:trigger spine[j].next} | i <= j < |spine| :: spine[j].next == At(spine, j + 1)
        invariant forall j | 0 <= j < |spine| :: spine[j].valid == flags[j]
        invariant kept == Select(spine, flags, true, i) && freed == Select(spine, flags, false, i)
        invariant prev == Last(kept)
        invariant if |kept| == 0 then head == curr else head == kept[0]
        invariant Chain(kept, 0, curr)
        decreases |spine| - i
      {
        assert i < |spine| && curr == spine[i];
        SelectDistinct(spine, flags, true, i);
        SelectNext(spine, flags, true, i);
        SelectNext(spine, flags, false, i);
        if !curr.valid {
          freed := freed + [curr];
          assert forall n | n in kept :: n in spine[..i] && n in spine;
          curr := Unlink(prev, curr, spine, kept, i);
        } else {
          kept := kept + [curr];
          prev := curr;
          curr := curr.next;
        }
        i := i + 1;
      }
      SelectDistinct(spine, flags, true, i);
      last := prev;
    }

    /** cleanup_semaphore_buf as written: the tail is reset only if the list has become empty. So head and
        tail fit the valid nodes exactly if no node is left, or the last node was a valid one. */
    method Cleanup(ghost spine: seq<Node>) returns (ghost freed: seq<Node>)
      requires Fits(spine)
      modifies this, (set n | n in spine)`next
      ensures var flags := old(Flags(spine));
              var kept := Select(spine, flags, true, |spine|);
              && Linked(head, kept) && freed == Select(spine, flags, false, |spine|)
              && tail == (if kept == [] then null else Last(spine))
              && (Fits(kept) <==> kept == [] || flags[|spine| - 1])
    {
      ghost var flags := Flags(spine);
      var last;
      last, freed := Sweep(spine);
      if head == null {
        tail := null;
      }
      LastKept(spine, flags);
    }

    /** The repaired form: the tail is the last node that the loop kept. */
    method CleanupRepaired(ghost spine: seq<Node>) returns (ghost freed: seq<Node>)
      requires Fits(spine)
      modifies this, (set n | n in spine)`next
      ensures var flags := old(Flags(spine));
              && Fits(Select(spine, flags, true, |spine|))
              && freed == Select(spine, flags, false, |spine|)
    {
      var last;
      last, freed := Sweep(spine);
      tail := last;
    }
  }

  lemma TwoNodes(first: Node, second: Node)
    requires first.valid && !second.valid
    ensures Flags([first, second]) == [true, false]
    ensures Select([first, second], [true, false], true, 2) == [first]
    ensures Select([first, second], [true, false], false, 2) == [second]
  {
    assert [first, second][..1] == [first];
    assert Flags([first]) == Flags([first][..0]) + [true];
    assert Select([first, second], [true, false], true, 1) == [first];
    assert Select([first, second], [true, false], false, 1) == [];
  }

  method TwoWaiters() returns (queue: WaitQueue, first: Node, second: Node)
    ensures fresh(queue) && fresh(first) && fresh(second) && first != second
    ensures first.valid && second.valid && queue.Fits([first, second])
  {
    queue := new WaitQueue();
    first := queue.Enqueue(1, []);
    assert [] + [first] == [first];
    second := queue.Enqueue(2, [first]);
    assert [first] + [second] == [first, second];
  }

  lemma LinkedOne(head: Node?, n: Node)
    requires Linked(head, [n])
    ensures head == n && n.next == null
  {
    assert [n][0].next == null;
  }

  /** Two processes wait, the second one no longer validly, and the list is cleaned up as written: the tail is
      left at the node that is gone, so that the next process to wait will be linked behind that. */
  method StaleTail() returns (queue: WaitQueue, first: Node, second: Node, ghost freed: seq<Node>)
    ensures first != second && first.valid && !second.valid && freed == [second]
    ensures queue.head == first && first.next == null && queue.tail == second
  {
    hide Select, Flags;
    queue, first, second := TwoWaiters();
    second.valid := false;
    TwoNodes(first, second);
    freed := queue.Cleanup([first, second]);
    hide *;
    LinkedOne(queue.head, first);
  }

  /** The last node is the last valid one exactly if it is valid. */
  lemma LastKept(spine: seq<Node>, flags: seq<bool>)
    requires Distinct(spine) && |flags| == |spine|
    ensures var kept := Select(spine, flags, true, |spine|);
            kept != [] ==> (Last(kept) == Last(spine) <==> flags[|spine| - 1])
  {
    var kept := Select(spine, flags, true, |spine|);
    if kept != [] {
      Selected(spine, flags, true, |spine|);
      assert kept[|kept| - 1] in kept;
    }
  }

  lemma Distribute(a: seq<Node>, b: seq<Node>, c: seq<Node>, n: Node)
    requires multiset(a) + multiset(b) == multiset(c)
    ensures multiset(a + [n]) + multiset(b) == multiset(b) + multiset(a + [n]) == multiset(c + [n])
  {
  }

  lemma SelectBoth(spine: seq<Node>, flags: seq<bool>, i: nat)
    requires |flags| == |spine| && i < |spine|
    ensures var a, b := Select(spine, flags, true, i), Select(spine, flags, false, i);
            && Select(spine, flags, true, i + 1) == (if flags[i] then a + [spine[i]] else a)
            && Select(spine, flags, false, i + 1) == (if flags[i] then b else b + [spine[i]])
            && spine[..i + 1] == spine[..i] + [spine[i]]
  {
  }

  /** Nodes that are both kept, or both freed, stay in the order in which they were put in line. */
  lemma {:induction false} SelectKeepsOrder(spine: seq<Node>, flags: seq<bool>, valid: bool, i: nat, a: nat, b: nat)
    requires |flags| == |spine| && a < b < i <= |spine| && flags[a] == flags[b] == valid
    ensures exists x, y :: && 0 <= x < y < |Select(spine, flags, valid, i)|
                           && Select(spine, flags, valid, i)[x] == spine[a]
                           && Select(spine, flags, valid, i)[y] == spine[b]
  {
    var front, s := Select(spine, flags, valid, i - 1), Select(spine, flags, valid, i);
    if b < i - 1 {
      SelectKeepsOrder(spine, flags, valid, i - 1, a, b);
      var x, y :| 0 <= x < y < |front| && front[x] == spine[a] && front[y] == spine[b];
      assert s[x] == spine[a] && s[y] == spine[b];
    } else {
      SelectHas(spine, flags, valid, i - 1, a);
      var x :| 0 <= x < |front| && front[x] == spine[a];
      assert s[x] == spine[a] && s[|front|] == spine[b];
    }
  }

  lemma {:induction false} SelectHas(spine: seq<Node>, flags: seq<bool>, valid: bool, i: nat, a: nat)
    requires |flags| == |spine| && a < i <= |spine| && flags[a] == valid
    ensures spine[a] in Select(spine, flags, valid, i)
  {
    if a < i - 1 {
      SelectHas(spine, flags, valid, i - 1, a);
    }
  }

  /** Kept and freed nodes together are all the nodes, each once. */
  lemma {:induction false} KeptOrFreed(spine: seq<Node>, flags: seq<bool>, i: nat)
    requires Distinct(spine) && |flags| == |spine| && i <= |spine|
    ensures multiset(Select(spine, flags, true, i)) + multiset(Select(spine, flags, false, i)) == multiset(spine[..i])
  {
    hide Select, Distinct;
    if i > 0 {
      var a, b := Select(spine, flags, true, i - 1), Select(spine, flags, false, i - 1);
      KeptOrFreed(spine, flags, i - 1);
      SelectBoth(spine, flags, i - 1);
      if flags[i - 1] {
        Distribute(a, b, spine[..i - 1], spine[i - 1]);
      } else {
        Distribute(b, a, spine[..i - 1], spine[i - 1]);
      }
    }
  }
}
