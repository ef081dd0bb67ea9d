/** The scheduler over its linked run queue. The list loses elements when one is appended that is
    already in it; the scheduler never does that. */
module RunQueue {
  import opened Scheduler
  import opened IntrusiveList
  import opened ThreadQueue

  class Processor {
    var tasks: map<Tid, Task>
    var current: Tid
    const idle: Tid
    const threads: map<Tid, Node>
    const queue: List

    ghost function Cpu(): Scheduler.Cpu
      reads this, queue
    {
      Scheduler.Cpu.Cpu(tasks, Owners(queue.nodes), current, idle)
    }

    /** The list is in order and its elements are those of the threads. */
    ghost predicate Linked()
      reads this, queue, queue.nodes
    {
      && queue.Valid() && Threaded(queue.nodes, threads)
      && threads.Keys == tasks.Keys && Elements(threads)
    }

    ghost predicate Valid()
      reads this, queue, queue.nodes
    {
      Linked() && Sound(Cpu())
    }

    /** The first thread runs; the others wait to be resumed. */
    constructor (first: Tid, idleThread: Tid, threads: map<Tid, Node>)
      requires first in threads && idleThread in threads && first != idleThread
      requires Elements(threads)
      ensures Valid() && fresh(queue) && current == first && idle == idleThread && queue.nodes == []
        && this.threads == threads
      ensures tasks == map t | t in threads :: if t == first then Task(true, 1) else Task(false, 0)
    {
      idle, current := idleThread, first;
      this.threads := threads;
      tasks := map t | t in threads :: if t == first then Task(true, 1) else Task(false, 0);
      queue := new List();
      new;
      assert Owners([]) == [];
    }

    method Resume(t: Tid)
      requires Valid() && t in tasks && t != idle
      modifies `tasks, queue, queue.nodes, threads[t]
      ensures Valid() && Cpu() == Scheduler.Resume(old(Cpu()), t)
    {
      hide Sound, Threaded, List.Valid, Owners, Distinct;
      ResumeSound(Cpu(), t);
      NotQueued(Cpu(), t);
      var prev := tasks[t].count;
      tasks := tasks[t := tasks[t].(count := prev + 1)];
      if prev == 0 {
        tasks := tasks[t := tasks[t].(runnable := true)];
        assert tasks == old(tasks)[t := Task(true, 1)];
        Enqueue(queue, threads, t);
      }
      assert Cpu() == Scheduler.Resume(old(Cpu()), t);
      assert Linked();
    }

    /** Gives the CPU to the first thread in the queue; the current one goes to its end. */
    method Rotate() returns (next: Tid)
      requires Linked() && Switchable(Cpu()) && Owners(queue.nodes) != []
      modifies queue, queue.nodes, threads[current]
      ensures Linked() && next == old(Owners(queue.nodes))[0]
      ensures Owners(queue.nodes) == old(Owners(queue.nodes))[1..] + if tasks[current].runnable then [current] else []
    {
      hide Threaded, Switchable, List.Valid, Owners, Distinct;
      CurrentNotQueued(Cpu());
      next := Dequeue(queue, threads);
      assert forall e :: e in queue.nodes ==> e in old(queue.nodes);
      if tasks[current].runnable { Enqueue(queue, threads, current); }
    }

    method Switch()
      requires Linked() && Switchable(Cpu())
      modifies `current, queue, queue.nodes, threads[current]
      ensures Valid() && Cpu() == Scheduler.Switch(old(Cpu()))
    {
      hide Sound, Threaded, Switchable, List.Valid, Owners, Distinct;
      CurrentNotQueued(Cpu());
      SwitchSound(Cpu());
      var empty := IsEmpty(queue);
      if !empty {
        var next := Rotate();
        current := next;
        assert Cpu() == Scheduler.Switch(old(Cpu()));
        return;
      }
      if tasks[current].runnable { return; }
      current := idle;
    }

    method BlockCurrent()
      requires Valid() && current != idle
      modifies this, queue, queue.nodes, threads[current]
      ensures Valid() && Cpu() == Scheduler.BlockCurrent(old(Cpu()))
    {
      hide Sound, Threaded, Switchable, Scheduler.Switch, List.Valid, Owners, Distinct;
      BlockSound(Cpu());
      JustBlocked(Cpu());
      tasks := tasks[current := tasks[current].(count := tasks[current].count - 1)];
      if tasks[current].count <= 0 {
        tasks := tasks[current := tasks[current].(runnable := false)];
        assert Cpu() == old(Cpu()).(tasks := old(tasks)[current := Task(false, 0)]);
        Switch();
      }
    }
  }

  /** What belongs to the queue: elements of the threads, one for each. */
  lemma QueueNodes(p: Processor)
    requires p.Valid()
    ensures forall i :: 0 <= i < |p.queue.nodes| ==> p.queue.nodes[i] in p.threads.Values
    ensures forall t :: t in p.tasks ==> t in p.threads && p.threads[t] in p.threads.Values
    ensures p.current in p.tasks && p.idle in p.tasks
  {
  }

  /** A thread without resumes is not in the queue. */
  lemma NotQueued(c: Scheduler.Cpu, t: Tid)
    requires Sound(c) && t in c.tasks
    ensures c.tasks[t].count == 0 ==> t !in c.rq
  {
  }

  /** The current thread is not in the queue, nor in what is left of it. */
  lemma CurrentNotQueued(c: Scheduler.Cpu)
    requires Switchable(c)
    ensures c.current in c.tasks && (c.rq != [] ==> c.current !in c.rq[1..])
  {
  }

  lemma JustBlocked(c: Scheduler.Cpu)
    requires Sound(c) && c.current != c.idle
    ensures c.current in c.tasks && c.tasks[c.current].count >= 1
    ensures c.tasks[c.current].count == 1 ==> Switchable(c.(tasks := c.tasks[c.current := Task(false, 0)]))
  {
  }
}
