/** The two linked structures of the tree-clone modules, on the heap: the queue with head and
    tail pointers, and the circular list of clone pids.
 */
module PidLists {
  import opened ProcessTree

  class QNode {
    var pid: Pid
    var next: QNode?

    constructor (pid: Pid)
      ensures this.pid == pid && next == null
    {
      this.pid := pid;
      next := null;
    }
  }

  class Queue {
    var head: QNode?
    var tail: QNode?
    ghost var nodes: seq<QNode>

    /** `nodes` is the chain from `head` to `tail`; it has no cycle. */
    ghost predicate Valid()
      reads this, nodes
    {
      && head == (if nodes == [] then null else nodes[0])
      && tail == (if nodes == [] then null else nodes[|nodes| - 1])
      && (forall i, j :: 0 <= i < j < |nodes| ==> nodes[i] != nodes[j])
      && (forall i {:trigger nodes[i].next} :: 0 <= i < |nodes| ==>
            nodes[i].next == if i + 1 < |nodes| then nodes[i + 1] else null)
    }

    ghost function Contents(): seq<Pid>
      reads this, nodes
    {
      seq(|nodes|, i requires 0 <= i < |nodes| reads this, nodes => nodes[i].pid)
    }

    constructor ()
      ensures Valid() && Contents() == [] && nodes == []
    {
      head, tail, nodes := null, null, [];
    }

    method AddToQueue(pid: Pid)
      requires Valid()
      modifies this, nodes
      ensures Valid() && Contents() == old(Contents()) + [pid]
      ensures nodes[..|nodes| - 1] == old(nodes) && fresh(nodes[|nodes| - 1])
    {
      var temp := new QNode(pid);
      if head == null {
        head := temp;
        tail := temp;
      } else {
        tail.next := temp;
        tail := temp;
      }
      nodes := nodes + [temp];
    }

    /** Removing from the empty queue leaves it empty. */
    method RemoveFromQueue()
      requires Valid()
      modifies this
      ensures Valid()
      ensures Contents() == if old(Contents()) == [] then [] else old(Contents())[1..]
      ensures nodes == if old(nodes) == [] then [] else old(nodes)[1..]
    {
      if head == tail {
        head := null;
        tail := null;
      } else {
        head := head.next;
      }
      if nodes != [] { nodes := nodes[1..]; }
    }

    method FrontOfQueue() returns (pid: Pid)
      requires Valid() && Contents() != []
      ensures pid == Contents()[0]
    {
      pid := head.pid;
    }

    /** The loop stops at the tail, whose pid is compared after it. */
    method PidIsInList(pid: Pid) returns (found: bool)
      requires Valid()
      ensures found <==> pid in Contents()
    {
      var temp := head;
      ghost var i := 0;
      while temp != tail
        invariant 0 <= i <= |nodes| && (nodes == [] ==> temp == null)
        invariant nodes != [] ==> i < |nodes| && temp == nodes[i]
        invariant forall j :: 0 <= j < i ==> Contents()[j] != pid
        decreases |nodes| - i
      {
        if temp.pid == pid { assert Contents()[i] == pid; return true; }
        temp := temp.next;
        i := i + 1;
      }
      if temp != null && temp.pid == pid { assert Contents()[i] == pid; return true; }
      return false;
    }
  }

  class PidNode {
    var pid: Pid
    var next: PidNode
    var prev: PidNode

    /** `new_pid_list`: a node linked to itself. */
    constructor (pid: Pid)
      ensures this.pid == pid && next == this && prev == this
    {
      this.pid := pid;
      next := this;
      prev := this;
    }
  }

  ghost predicate AllDifferent(ring: seq<PidNode>) {
    forall i, j :: 0 <= i < j < |ring| ==> ring[i] != ring[j]
  }

  /** Every node of `ring` points to its neighbours; the last and the first are neighbours. */
  ghost predicate Linked(ring: seq<PidNode>)
    reads ring
  {
    && (forall i {:trigger ring[i].next} :: 0 <= i < |ring| ==>
          ring[i].next == if i + 1 < |ring| then ring[i + 1] else ring[0])
    && (forall i {:trigger ring[i].prev} :: 0 <= i < |ring| ==>
          ring[i].prev == if i > 0 then ring[i - 1] else ring[|ring| - 1])
  }

  /** A node put in behind the first. */
  lemma Relinked(was: seq<PidNode>, ring: seq<PidNode>, head: PidNode, node: PidNode)
    requires was != [] && was[0] == head && AllDifferent(was) && node !in was && ring == [head, node] + was[1..]
    requires head.next == node && node.prev == head
    requires node.next == if |was| > 1 then was[1] else head
    requires head.prev == if |was| > 1 then was[|was| - 1] else node
    requires |was| > 1 ==> was[1].prev == node
    requires forall i {:trigger was[i].next} :: 1 <= i < |was| ==>
              was[i].next == if i + 1 < |was| then was[i + 1] else head
    requires forall i {:trigger was[i].prev} :: 2 <= i < |was| ==> was[i].prev == was[i - 1]
    ensures AllDifferent(ring) && Linked(ring)
  {
    assert forall i :: 2 <= i < |ring| ==> ring[i] == was[i - 1];
    assert was[|was| - 1] == ring[|ring| - 1] || |was| == 1;
    var n := |ring|;
    assert ring[0] == head && ring[1] == node;
    assert ring[0].prev == ring[n - 1];
    assert ring[1].prev == ring[0];
    assert n > 2 ==> ring[2] == was[1] && ring[2].prev == ring[1];
    forall i | 2 <= i < n ensures ring[i].next == if i + 1 < n then ring[i + 1] else ring[0] {
      assert was[i - 1].next == if i < |was| then was[i] else head;
    }
    forall i | 3 <= i < n ensures ring[i].prev == ring[i - 1] {
      assert was[i - 1].prev == was[i - 2] && ring[i - 1] == was[i - 2];
    }
  }

  class PidList {
    const head: PidNode
    ghost var ring: seq<PidNode>

    /** `ring` is the cycle through the list head, which carries no pid of its own. */
    ghost predicate Valid()
      reads this, ring
    {
      && ring != [] && ring[0] == head
      && AllDifferent(ring) && Linked(ring)
    }

    ghost function Contents(): seq<Pid>
      requires ring != []
      reads this, ring
    {
      seq(|ring| - 1, i requires 0 <= i < |ring| - 1 reads this, ring => ring[i + 1].pid)
    }

    constructor ()
      ensures Valid() && Contents() == [] && fresh(ring)
    {
      head := new PidNode(0);
      ring := [head];
    }

    /** `list_add`: link `node` in behind the head. */
    method ListAdd(node: PidNode)
      requires Valid() && node !in ring
      modifies this`ring, head`next, head.next`prev, node`next, node`prev
      ensures Valid() && Contents() == [node.pid] + old(Contents())
      ensures ring == [head, node] + old(ring)[1..]
    {
      ghost var was := ring;
      var next := head.next;
      assert next == if |was| > 1 then was[1] else head;
      next.prev := node;
      node.next := next;
      node.prev := head;
      head.next := node;
      ring := [head, node] + was[1..];
      Relinked(was, ring, head, node);
      forall i | 0 <= i < |ring| - 1 ensures Contents()[i] == ([node.pid] + old(Contents()))[i] {
        if i > 0 { assert ring[i + 1] == was[i]; }
      }
    }

    /** `in_pid_list`. */
    method InPidList(pid: Pid) returns (found: bool)
      requires Valid()
      ensures found <==> pid in Contents()
    {
      var temp := head.next;
      ghost var i := 1;
      while temp != head
        invariant 1 <= i <= |ring| && temp == if i < |ring| then ring[i] else head
        invariant forall j :: 0 <= j < i - 1 ==> Contents()[j] != pid
        decreases |ring| - i
      {
        if temp.pid == pid { assert Contents()[i - 1] == pid; return true; }
        temp := temp.next;
        i := i + 1;
      }
      return false;
    }
  }
}
