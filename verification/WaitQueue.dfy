/** The queues of senders that wait for the channels, all linked through one element per thread. A
    thread waits in one of them at most, so that no append breaks a list. */
module WaitQueue {
  import opened Scheduler
  import opened IntrusiveList
  import opened ThreadQueue
  import opened Ipc

  class Waiters {
    const queues: map<Cid, List>
    const threads: map<Tid, Node>

    /** The senders that wait for channel `c`. */
    ghost function Queue(c: Cid): seq<Tid>
      requires c in queues
      reads queues[c]
    {
      Owners(queues[c].nodes)
    }

    /** The list of channel `c` is in order and its elements are those of the threads. */
    ghost predicate Whole(c: Cid)
      requires c in queues
      reads queues[c], threads.Values
    {
      Threaded(queues[c].nodes, threads) && queues[c].Valid()
    }

    /** Nobody waits in two queues. */
    ghost predicate Apart(c: Cid, d: Cid)
      requires c in queues && d in queues
      reads queues[c], queues[d]
    {
      queues[c] != queues[d] && forall t :: t in Queue(c) ==> t !in Queue(d)
    }

    ghost predicate Valid()
      reads queues.Values, threads.Values
    {
      && Elements(threads)
      && (forall c :: c in queues ==> Whole(c))
      && (forall c, d :: c in queues && d in queues && c != d ==> Apart(c, d))
    }

    constructor (queues: map<Cid, List>, threads: map<Tid, Node>)
      requires Elements(threads)
      requires forall c :: c in queues ==> queues[c].Valid() && queues[c].nodes == []
      requires forall c, d :: c in queues && d in queues && c != d ==> queues[c] != queues[d]
      ensures Valid() && this.queues == queues && this.threads == threads
      ensures forall c :: c in queues ==> Queue(c) == []
    {
      this.queues, this.threads := queues, threads;
      new;
      assert Owners([]) == [];
    }

    method IsEmpty(c: Cid) returns (b: bool)
      requires Valid() && c in queues
      ensures b <==> Queue(c) == []
    {
      assert Whole(c);
      b := ThreadQueue.IsEmpty(queues[c]);
    }

    /** A thread that waits nowhere queues up for channel `c`. */
    method Append(c: Cid, t: Tid)
      requires Valid() && c in queues && t in threads && forall d :: d in queues ==> t !in Queue(d)
      modifies queues[c], queues[c].nodes, threads[t]
      ensures Valid() && Queue(c) == old(Queue(c)) + [t]
      ensures forall d :: d in queues && d != c ==> Queue(d) == old(Queue(d))
    {
      hide Threaded, Owners, List.Valid;
      assert Whole(c);
      ghost var mine := queues[c].nodes + [threads[t]];
      forall d | d in queues && d != c ensures queues[d] != queues[c] && NoneIn(queues[d].nodes, mine) {
        assert Apart(d, c);
        OthersNodes(queues[d].nodes, queues[c].nodes, threads[t]);
      }
      Enqueue(queues[c], threads, t);
      forall d | d in queues && d != c ensures Whole(d) && Queue(d) == old(Queue(d)) {
        assert old(Whole(d)) && NoneIn(queues[d].nodes, mine);
      }
      forall d, e | d in queues && e in queues && d != e ensures Apart(d, e) {
        assert old(Apart(d, e));
      }
    }

    /** Takes the thread that waits longest for channel `c`. */
    method TakeFirst(c: Cid) returns (t: Tid)
      requires Valid() && c in queues && Queue(c) != []
      modifies queues[c]
      ensures Valid() && t == old(Queue(c))[0] && Queue(c) == old(Queue(c))[1..]
      ensures forall d :: d in queues && d != c ==> Queue(d) == old(Queue(d))
    {
      hide Threaded, Owners, List.Valid;
      assert Whole(c);
      t := Dequeue(queues[c], threads);
    }
  }

  ghost predicate NoneIn(a: seq<Node>, b: seq<Node>) {
    forall i :: 0 <= i < |a| ==> a[i] !in b
  }

  lemma OthersNodes(a: seq<Node>, b: seq<Node>, e: Node)
    requires (forall t :: t in Owners(a) ==> t !in Owners(b)) && e.owner !in Owners(a)
    ensures NoneIn(a, b + [e])
  {
    forall i | 0 <= i < |a| ensures a[i] !in b + [e] {
      assert Owners(a)[i] in Owners(a);
      NotListed(b, a[i]);
    }
  }

  /** A thread that runs waits in no queue. */
  lemma NotWaiting(s: State, c: Cid)
    requires Inv(s) && c in s.chans && s.cpu.current != s.cpu.idle
    ensures s.cpu.current !in s.chans[c].wq
  {
    hide Closed, ThreadOk, RightsOk, LogOk, NoLostWakeup;
    CurrentRuns(s);
    assert ChanOk(s, c);
  }
}
