/** Queues of threads, linked through the threads themselves. */
module ThreadQueue {
  import opened Scheduler
  import opened IntrusiveList

  ghost function Owners(nodes: seq<Node>): (r: seq<Tid>)
    ensures |r| == |nodes| && forall i :: 0 <= i < |nodes| ==> r[i] == nodes[i].owner
  {
    seq(|nodes|, i requires 0 <= i < |nodes| => nodes[i].owner)
  }

  /** Every element of the list is that of a known thread. */
  ghost predicate Threaded(nodes: seq<Node>, threads: map<Tid, Node>) {
    forall i :: 0 <= i < |nodes| ==> nodes[i].owner in threads && threads[nodes[i].owner] == nodes[i]
  }

  /** Each element belongs to its thread. */
  ghost predicate Elements(threads: map<Tid, Node>) {
    forall t :: t in threads ==> threads[t].owner == t
  }

  /** Puts a thread that is not queued at the end. */
  method Enqueue(queue: List, threads: map<Tid, Node>, t: Tid)
    requires queue.Valid() && Threaded(queue.nodes, threads) && t in threads && threads[t].owner == t
    requires t !in Owners(queue.nodes)
    modifies queue, queue.nodes, threads[t]
    ensures queue.Valid() && Threaded(queue.nodes, threads) && Owners(queue.nodes) == old(Owners(queue.nodes)) + [t]
  {
    ghost var nodes := queue.nodes;
    NotListed(nodes, threads[t]);
    queue.Append(threads[t]);
    assert Owners(nodes + [threads[t]]) == Owners(nodes) + [t];
  }

  /** Takes the first thread of a queue that is not empty. */
  method Dequeue(queue: List, ghost threads: map<Tid, Node>) returns (t: Tid)
    requires queue.Valid() && Threaded(queue.nodes, threads) && queue.nodes != []
    modifies queue
    ensures queue.Valid() && Threaded(queue.nodes, threads) && queue.nodes == old(queue.nodes[1..])
    ensures t == old(Owners(queue.nodes))[0] && Owners(queue.nodes) == old(Owners(queue.nodes))[1..]
  {
    var e := queue.Pop();
    t := e.owner;
  }

  method IsEmpty(queue: List) returns (b: bool)
    requires queue.Valid()
    ensures b <==> Owners(queue.nodes) == []
  {
    b := queue.head == null;
  }

  lemma NotListed(nodes: seq<Node>, e: Node)
    requires e.owner !in Owners(nodes)
    ensures e !in nodes
  {
    forall i | 0 <= i < |nodes| ensures nodes[i] != e {
      assert Owners(nodes)[i] in Owners(nodes);
    }
  }
}
