/** The kernel's singly linked lists, threaded through the elements themselves: the run queue
    and the wait queues of channels. */
module IntrusiveList {

  class Node {
    var next: Node?
    /** What the element is part of. */
    const owner: nat

    constructor (owner: nat)
      ensures next == null && this.owner == owner
    {
      next := null;
      this.owner := owner;
    }
  }

  /** The element at place `i`, or nothing at the end. */
  ghost function At(nodes: seq<Node>, i: nat): Node? {
    if i < |nodes| then nodes[i] else null
  }

  ghost predicate Distinct(nodes: seq<Node>) {
    forall i, j :: 0 <= i < j < |nodes| ==> nodes[i] != nodes[j]
  }

  class List {
    var head: Node?
    ghost var nodes: seq<Node>

    /** Following `next` from the head visits exactly `nodes`, each once. */
    ghost predicate Valid()
      reads this, nodes
    {
      && head == At(nodes, 0) && Distinct(nodes)
      && (forall i: nat :: i < |nodes| ==> nodes[i].next == At(nodes, i + 1))
    }

    constructor ()
      ensures Valid() && nodes == []
    {
      head := null;
      nodes := [];
    }

    /** The walk to the end; on a list that holds each element once it meets no element that
        points at itself. */
    method Last() returns (last: Node?)
      requires Valid()
      ensures last == if nodes == [] then null else nodes[|nodes| - 1]
    {
      last := null;
      var at := head;
      ghost var i: nat := 0;
      while at != null
        invariant i <= |nodes| && at == At(nodes, i)
        invariant last == if i > 0 then nodes[i - 1] else null
        decreases |nodes| - i
      {
        assert nodes[i].next == At(nodes, i + 1);
        if at == at.next {
          assert false;
          return;
        }
        last := at;
        at := at.next;
        i := i + 1;
      }
    }

    /** Puts `e` at the end. That is what happens exactly when `e` is not in the list; an element
        that is already there loses what follows it, and the last one comes to point at itself. */
    method Append(e: Node)
      requires Valid()
      modifies this, nodes, e`next
      ensures e !in old(nodes) ==> Valid() && nodes == old(nodes) + [e]
      ensures forall i :: 0 <= i < |old(nodes)| - 1 && old(nodes)[i] == e ==> Valid() && nodes == old(nodes)[..i + 1]
      ensures old(nodes) != [] && old(nodes)[|old(nodes)| - 1] == e ==> e.next == e && !Valid() && nodes == old(nodes)
    {
      var last := Last();
      e.next := null;
      if last == null {
        head := e;
        nodes := [e];
      } else {
        last.next := e;
        if e !in nodes {
          nodes := nodes + [e];
        } else {
          ghost var k :| 0 <= k < |nodes| && nodes[k] == e;
          if k < |nodes| - 1 {
            nodes := nodes[..k + 1];
          } else {
            assert nodes[k].next == e != At(nodes, k + 1);
          }
        }
      }
    }

    /** Takes the first element, if there is one. */
    method Pop() returns (e: Node?)
      requires Valid()
      modifies this
      ensures Valid()
      ensures old(nodes) == [] ==> e == null && nodes == []
      ensures old(nodes) != [] ==> e == old(nodes)[0] && nodes == old(nodes)[1..]
    {
      if head == null { return null; }
      e := head;
      assert nodes[0].next == At(nodes, 1);
      head := e.next;
      ghost var rest := nodes[1..];
      forall i: nat | i < |rest| ensures rest[i].next == At(rest, i + 1) {
        assert rest[i] == nodes[i + 1] && nodes[i + 1].next == At(nodes, i + 2);
      }
      nodes := rest;
    }
  }
}
