/** The kernel's operations as they change its state, with the run queue and the wait queues linked
    through the threads. Each is proved to be the step of the message-passing model that it stands
    for. A call that blocks ends there; `Continue` is the rest of it once the thread runs again. */
module Kernel {
  import opened Values
  import opened Scheduler
  import opened IntrusiveList
  import opened ThreadQueue
  import opened RunQueue
  import opened WaitQueue
  import opened Ipc

  datatype Outcome = Done | Blocked | Received(msg: Msg) | Refused(error: Error)

  class Machine {
    const cpu: Processor
    const waits: Waiters
    var pcs: map<Tid, Pc>
    var bufs: map<Tid, Msg>
    /** The channels without their wait queues. */
    var ports: map<Cid, Chan>

    /** The channels with the queues that are in `waits`. */
    ghost function Chans(): map<Cid, Chan>
      reads this, waits.queues.Values
    {
      map c | c in ports && c in waits.queues :: ports[c].(wq := waits.Queue(c))
    }

    ghost function Abs(): State
      reads this, cpu, cpu.queue, waits.queues.Values
    {
      State(cpu.Cpu(), pcs, bufs, Chans())
    }

    /** All lists are in order and have no elements in common. */
    ghost predicate Shaped()
      reads this, cpu, cpu.queue, cpu.queue.nodes, waits.queues.Values, waits.threads.Values
    {
      && cpu.Valid() && waits.Valid()
      && waits.queues.Keys == ports.Keys && waits.threads.Keys == cpu.threads.Keys
      && cpu.threads.Values !! waits.threads.Values && cpu.queue !in waits.queues.Values
    }

    ghost predicate Valid()
      reads this, cpu, cpu.queue, cpu.queue.nodes, waits.queues.Values, waits.threads.Values
    {
      Shaped() && Inv(Abs())
    }

    /** Threads that take turns from the first on, an idle one, and channels nobody uses yet. */
    constructor (threads: seq<Tid>, idleThread: Tid, channels: map<Cid, Chan>, blank: Msg)
      requires threads != [] && NoDuplicates(threads) && idleThread !in threads
      requires forall c :: c in channels ==> Unused(channels[c])
      ensures Valid() && Fresh(Abs()) && Abs().chans == channels && fresh(cpu) && fresh(cpu.queue)
      ensures fresh(cpu.threads.Values) && fresh(waits.queues.Values) && fresh(waits.threads.Values)
      ensures cpu.Cpu() == FirstCpu(threads, idleThread)
      ensures forall t :: t in pcs <==> t in threads || t == idleThread
    {
      hide *;
      var p := StartThreads(threads, idleThread);
      var waiting := NewElements(threads + [idleThread]);
      var queues := NewQueues(channels.Keys);
      var w := new Waiters(queues, waiting);
      cpu, waits := p, w;
      pcs := ForAll(threads, idleThread, User);
      bufs := ForAll(threads, idleThread, blank);
      ports := channels;
      new;
      AllUnused(this, channels);
      FreshMachine(Abs(), threads, idleThread, blank);
      FreshInv(Abs());
      NewShape(this);
    }

    /** One more resume for a thread. */
    method ThreadResume(t: Tid)
      requires Shaped() && t in cpu.tasks && t != cpu.idle
      modifies cpu`tasks, cpu.queue, cpu.threads.Values
      ensures Shaped() && Abs() == old(Abs()).(cpu := Resume(old(Abs()).cpu, t))
    {
      hide Processor.Valid, Waiters.Valid, Scheduler.Resume;
      QueueNodes(cpu);
      cpu.Resume(t);
    }

    /** Gives the CPU to the next thread. */
    method ThreadSwitch()
      requires Shaped()
      modifies cpu`current, cpu.queue, cpu.threads.Values
      ensures Shaped() && old(cpu.current in cpu.tasks) && Abs() == old(Abs()).(cpu := Switch(old(Abs()).cpu))
    {
      hide Processor.Valid, Processor.Linked, Waiters.Valid, Scheduler.Switch, Switchable, Waiters.Queue, Owners;
      QueueNodes(cpu);
      SoundSwitchable(cpu);
      cpu.Switch();
    }

    /** Notes where the thread stands and uses up one resume. */
    method ThreadBlockCurrent(pc: Pc)
      requires Shaped() && cpu.current != cpu.idle
      modifies this`pcs, cpu, cpu.queue, cpu.threads.Values
      ensures Shaped() && old(cpu.current in cpu.tasks) && Abs() == Blocks(old(Abs()), pc)
    {
      hide Processor.Valid, Waiters.Valid, Scheduler.BlockCurrent;
      QueueNodes(cpu);
      pcs := pcs[cpu.current := pc];
      cpu.BlockCurrent();
    }

    /** Changes a channel, but not its queue. */
    method SetPort(c: Cid, ch: Chan)
      requires Shaped() && c in ports
      modifies this`ports
      ensures Shaped() && ports == old(ports)[c := ch]
      ensures Abs() == old(Abs()).(chans := old(Chans())[c := ch.(wq := old(Chans())[c].wq)])
    {
      hide Processor.Valid, Processor.Cpu, Waiters.Valid, Waiters.Queue;
      ports := ports[c := ch];
      assert Chans() == old(Chans())[c := ch.(wq := old(Chans())[c].wq)];
    }

    /** The current thread queues up for a channel. */
    method QueueUp(c: Cid)
      requires Valid() && c in ports && cpu.current != cpu.idle
      modifies waits.queues.Values, waits.threads.Values
      ensures Shaped()
      ensures var chans := old(Chans());
        Abs() == old(Abs()).(chans := chans[c := chans[c].(wq := chans[c].wq + [cpu.current])])
    {
      hide Processor.Valid, Waiters.Valid, Inv, Owners;
      QueueNodes(cpu);
      forall d | d in ports ensures cpu.current !in waits.Queue(d) { NotWaiting(Abs(), d); }
      WaitNodes(waits, c);
      waits.Append(c, cpu.current);
    }

    method NobodyWaits(c: Cid) returns (b: bool)
      requires Shaped() && c in ports
      ensures c in Chans() && (b <==> Chans()[c].wq == [])
    {
      hide Processor.Valid, Waiters.Valid;
      b := waits.IsEmpty(c);
    }

    /** Takes the first thread out of the queue of a channel. */
    method TakeFirst(c: Cid) returns (t: Tid)
      requires Shaped() && c in ports && c in Chans() && Chans()[c].wq != []
      modifies waits.queues.Values
      ensures Shaped() && t == old(Chans())[c].wq[0]
      ensures var chans := old(Chans()); Abs() == old(Abs()).(chans := chans[c := chans[c].(wq := chans[c].wq[1..])])
    {
      hide Processor.Valid, Waiters.Valid;
      t := waits.TakeFirst(c);
    }

    method SetPc(pc: Pc)
      requires Shaped()
      modifies this`pcs
      ensures Shaped() && Abs() == old(Abs()).(pcs := old(pcs)[cpu.current := pc])
    {
      hide Processor.Valid, Waiters.Valid;
      pcs := pcs[cpu.current := pc];
    }

    method SetBuffer(t: Tid, msg: Msg)
      requires Shaped()
      modifies this`bufs
      ensures Shaped() && Abs() == old(Abs()).(bufs := old(bufs)[t := msg])
    {
      hide Processor.Valid, Waiters.Valid;
      bufs := bufs[t := msg];
    }

    /** Fills the receiver's buffer and resumes it. */
    method Handover(dst: Cid, msg: Msg)
      requires Shaped() && dst in ports && ports[dst].receiver.Some?
      requires ports[dst].receiver.value in cpu.tasks && ports[dst].receiver.value != cpu.idle
      modifies this, cpu, cpu.queue, cpu.threads.Values
      ensures Shaped() && dst in old(Chans()) && Abs() == Deliver(old(Abs()), dst, msg)
    {
      hide Shaped, Resume, Chans;
      PortOf(this, dst);
      var receiver := ports[dst].receiver.value;
      SetBuffer(receiver, msg);
      SetPort(dst, ports[dst].(accepted := ports[dst].accepted + [msg]));
      ThreadResume(receiver);
      SetPc(User);
    }

    /** The slow path, from the attempt to get the sender right. */
    method SendSlowpath(dst: Cid, msg: Msg) returns (r: Outcome)
      requires Valid() && dst in ports && cpu.current != cpu.idle
      modifies this, cpu, cpu.queue, cpu.threads.Values, waits.queues.Values, waits.threads.Values
      ensures Shaped() && Closed(old(Abs())) && dst in old(Chans()) && Abs() == SendSlow(old(Abs()), dst, msg)
      ensures r == if old(ports[dst].sender.None? && ports[dst].receiver.Some?) then Done else Blocked
    {
      hide Shaped, Inv, Closed, Blocks, Deliver, Chans;
      PortOf(this, dst);
      KnownNames(Abs(), dst);
      if ports[dst].sender.Some? {
        QueueUp(dst);
        ThreadBlockCurrent(SendQueued(dst, msg));
        return Blocked;
      }
      SetPort(dst, ports[dst].(sender := Some(cpu.current)));
      if ports[dst].receiver.None? {
        ThreadBlockCurrent(SendWait(dst, msg));
        return Blocked;
      }
      Handover(dst, msg);
      return Done;
    }

    /** A send: refused on a channel that is unknown or not linked, at once when a receiver
        waits and nobody else sends, else by the slow path. `inline` says that no payload needs
        translation; the two paths must not differ. */
    method SysSend(src: Cid, header: nat, payloads: seq<nat>, inline: bool) returns (r: Outcome)
      requires Valid() && cpu.current != cpu.idle && cpu.current in pcs && pcs[cpu.current] == User
      requires Linked(ports)
      modifies this, cpu, cpu.queue, cpu.threads.Values, waits.queues.Values, waits.threads.Values
      ensures Valid() && Closed(old(Abs())) && Abs() == Ipc.Step(old(Abs()), DoSend(src, header, payloads))
      ensures r == Refused(InvalidCh) <==> src !in old(ports) || !old(ports)[src].isOpen
      ensures r == Refused(NotLinked) <==> src in old(ports) && old(ports)[src].isOpen && old(ports)[src].linkedTo.None?
      ensures r.Refused? ==> Abs() == old(Abs())
    {
      hide Shaped, Inv, Closed, Chans, Deliver, SendSlow;
      InvClosed(Abs());
      StepKeeps(Abs(), DoSend(src, header, payloads));
      ghost var s := Abs();
      SameRoute(this, src);
      if src !in ports || !ports[src].isOpen { return Refused(InvalidCh); }
      if ports[src].linkedTo.None? { return Refused(NotLinked); }
      var linked := ports[src].linkedTo.value;
      LinkedTo(ports, src);
      var dst := ports[linked].transferTo;
      var msg := Msg(header, linked, payloads);
      assert Route(ports, src) == Some((dst, linked));
      PortOf(this, dst);
      KnownNames(Abs(), dst);
      if inline && ports[dst].sender.None? {
        if ports[dst].receiver.Some? {
          SetPort(dst, ports[dst].(sender := Some(cpu.current)));
          Handover(dst, msg);
          return Done;
        }
      }
      EitherPath(s, dst, msg);
      r := SendSlowpath(dst, msg);
    }

    /** A receive: refused on an unknown channel, or when another thread holds the receiver
        right; else it always waits. */
    method ChannelRecv(c: Cid) returns (r: Outcome)
      requires Valid() && cpu.current != cpu.idle && cpu.current in pcs && pcs[cpu.current] == User
      modifies this, cpu, cpu.queue, cpu.threads.Values, waits.queues.Values
      ensures Valid() && Closed(old(Abs())) && Abs() == Ipc.Step(old(Abs()), DoRecv(c))
      ensures r == Refused(InvalidCh) <==> c !in old(ports) || !old(ports)[c].isOpen
      ensures r == Refused(InUse) <==> c in old(ports) && old(ports)[c].isOpen && old(ports)[c].receiver.Some?
      ensures r.Refused? || r == Blocked
      ensures r.Refused? ==> Abs() == old(Abs())
    {
      hide Shaped, Inv, Closed, Chans, Blocks, Resume;
      InvClosed(Abs());
      StepKeeps(Abs(), DoRecv(c));
      SameRoute(this, c);
      if c !in ports || !ports[c].isOpen { return Refused(InvalidCh); }
      PortOf(this, c);
      if ports[c].receiver.Some? { return Refused(InUse); }
      KnownNames(Abs(), c);
      SetPort(c, ports[c].(receiver := Some(cpu.current)));
      if ports[c].sender.Some? {
        ThreadResume(ports[c].sender.value);
      } else {
        var empty := NobodyWaits(c);
        if !empty {
          var first := TakeFirst(c);
          ThreadResume(first);
        }
      }
      ThreadBlockCurrent(RecvWait(c));
      return Blocked;
    }

    /** The rest of a call whose thread has blocked and runs again. From a reachable state a
        receive returns the oldest accepted message not yet returned, and a sender that holds
        the right finds its receiver. */
    method Continue() returns (r: Outcome)
      requires Valid() && cpu.current != cpu.idle && cpu.current in pcs && pcs[cpu.current] != User
      modifies this, cpu, cpu.queue, cpu.threads.Values, waits.queues.Values, waits.threads.Values
      ensures Valid() && Closed(old(Abs())) && Abs() == Ipc.Step(old(Abs()), DoContinue)
      ensures old(pcs[cpu.current]).RecvWait? ==> r.Received?
      ensures old(pcs[cpu.current]).SendWait? ==> r == Done
      ensures r.Received? ==> old(pcs[cpu.current]).RecvWait?
      ensures r.Received? ==>
        var c := old(pcs[cpu.current]).ch;
        c in old(ports) && |old(ports)[c].returned| < |old(ports)[c].accepted|
        && r.msg == old(ports)[c].accepted[|old(ports)[c].returned|]
    {
      hide Shaped, Inv, Closed, ChanOk, ThreadOk, SendSlow, Chans, Deliver;
      ghost var s := Abs();
      InvClosed(s);
      StepKeeps(s, DoContinue);
      match pcs[cpu.current]
      case SendQueued(dst, msg) =>
        SameRoute(this, dst);
        r := SendSlowpath(dst, msg);
      case SendWait(dst, msg) =>
        SameRoute(this, dst);
        PortOf(this, dst);
        WaitedSenderReady(s, dst, msg);
        Receives(s, dst);
        KnownNames(s, dst);
        Handover(dst, msg);
        return Done;
      case RecvWait(c) =>
        SameRoute(this, c);
        PortOf(this, c);
        ReturnReady(s, c);
        var ch := ports[c];
        SetPc(User);
        SetPort(c, ch.(sender := None, receiver := None, returned := ch.returned + [bufs[cpu.current]]));
        return Received(bufs[cpu.current]);
    }

    /** The timer interrupt outside the kernel. */
    method Tick()
      requires Valid() && (cpu.current == cpu.idle || (cpu.current in pcs && pcs[cpu.current] == User))
      modifies cpu, cpu.queue, cpu.threads.Values
      ensures Valid() && Closed(old(Abs())) && Abs() == Ipc.Step(old(Abs()), DoTick)
    {
      hide Shaped, Inv, Closed, Switch, Chans;
      InvClosed(Abs());
      StepKeeps(Abs(), DoTick);
      ThreadSwitch();
    }
  }

  /** What the channels say without their queues. */
  lemma SameRoute(m: Machine, src: Cid)
    requires m.Shaped()
    ensures src in m.ports <==> src in m.Chans()
    ensures src in m.ports ==> m.Chans()[src] == m.ports[src].(wq := m.Chans()[src].wq)
    ensures Route(m.ports, src) == Route(m.Chans(), src)
  {
    hide Processor.Valid, Waiters.Valid;
  }

  lemma SoundSwitchable(p: Processor)
    requires p.Valid()
    ensures p.Linked() && Switchable(p.Cpu())
  {
  }

  lemma PortOf(m: Machine, c: Cid)
    requires m.Shaped() && c in m.ports
    ensures c in m.waits.queues && c in m.Chans() && m.Chans()[c] == m.ports[c].(wq := m.waits.Queue(c))
  {
    hide Processor.Valid, Waiters.Valid;
  }

  /** The threads at a channel are known, and none of them is the idle one. */
  lemma KnownNames(s: State, c: Cid)
    requires Inv(s) && c in s.chans
    ensures Closed(s)
    ensures s.chans[c].receiver.Some? ==>
      s.chans[c].receiver.value in s.cpu.tasks && s.chans[c].receiver.value != s.cpu.idle
    ensures s.chans[c].sender.Some? && s.chans[c].receiver.None? ==>
      s.chans[c].sender.value in s.cpu.tasks && s.chans[c].sender.value != s.cpu.idle
    ensures s.chans[c].wq != [] ==> s.chans[c].wq[0] in s.cpu.tasks && s.chans[c].wq[0] != s.cpu.idle
  {
    hide ThreadOk, LogOk, NoLostWakeup, Sound, Once;
    assert ChanOk(s, c);
    if s.chans[c].wq != [] { assert s.chans[c].wq[0] in s.chans[c].wq; }
  }

  lemma WaitNodes(w: Waiters, c: Cid)
    requires w.Valid() && c in w.queues
    ensures forall i :: 0 <= i < |w.queues[c].nodes| ==> w.queues[c].nodes[i] in w.threads.Values
    ensures forall t :: t in w.threads ==> w.threads[t] in w.threads.Values
  {
    assert w.Whole(c);
  }

  /** The processor when the first thread runs and the others wait for their turn. */
  ghost function FirstCpu(threads: seq<Tid>, idle: Tid): Cpu
    requires threads != []
  {
    Scheduler.Cpu.Cpu(FirstTasks(threads, idle), threads[1..], threads[0], idle)
  }

  lemma AllUnused(m: Machine, channels: map<Cid, Chan>)
    requires m.ports == channels && m.waits.queues.Keys == channels.Keys
    requires forall c :: c in channels ==> Unused(channels[c]) && m.waits.Queue(c) == []
    ensures m.Abs().chans == channels && m.Abs().cpu == m.cpu.Cpu() && m.Abs().pcs == m.pcs && m.Abs().bufs == m.bufs
  {
    hide Waiters.Queue;
  }

  lemma NewShape(m: Machine)
    requires m.cpu.Valid() && m.waits.Valid() && m.waits.queues.Keys == m.ports.Keys
    requires m.waits.threads.Keys == m.cpu.threads.Keys
    requires m.cpu.threads.Values !! m.waits.threads.Values && m.cpu.queue !in m.waits.queues.Values
    requires Inv(m.Abs())
    ensures m.Valid()
  {
    hide Processor.Valid, Waiters.Valid, Inv;
  }

  /** An element for each thread. */
  method NewElements(threads: seq<Tid>) returns (m: map<Tid, Node>)
    ensures Elements(m) && fresh(m.Values) && forall t :: t in m <==> t in threads
  {
    m := map[];
    var i := 0;
    while i < |threads|
      invariant 0 <= i <= |threads| && Elements(m) && forall t :: t in m ==> fresh(m[t])
      invariant forall t :: t in m <==> t in threads[..i]
    {
      var e := new Node(threads[i]);
      m := m[threads[i] := e];
      i := i + 1;
    }
  }

  /** An empty queue for each channel. */
  method NewQueues(channels: set<Cid>) returns (m: map<Cid, List>)
    ensures m.Keys == channels && fresh(m.Values)
    ensures forall c :: c in m ==> m[c].Valid() && m[c].nodes == []
    ensures forall c, d :: c in m && d in m && c != d ==> m[c] != m[d]
  {
    m := map[];
    var todo := channels;
    while todo != {}
      invariant todo <= channels && m.Keys == channels - todo && forall c :: c in m ==> fresh(m[c])
      invariant forall c :: c in m ==> m[c].Valid() && m[c].nodes == []
      invariant forall c, d :: c in m && d in m && c != d ==> m[c] != m[d]
      decreases todo
    {
      var c :| c in todo;
      var q := new List();
      m := m[c := q];
      todo := todo - {c};
    }
  }

  /** Starts the first thread and resumes the others, in order. */
  method StartThreads(threads: seq<Tid>, idle: Tid) returns (p: Processor)
    requires threads != [] && NoDuplicates(threads) && idle !in threads
    ensures fresh(p) && fresh(p.queue) && fresh(p.threads.Values) && p.Valid() && p.Cpu() == FirstCpu(threads, idle)
    ensures forall t :: t in p.threads <==> t in threads + [idle]
  {
    hide Processor.Valid, NoDuplicates, FirstCpu, Started, Resume, Elements;
    var elements := NewElements(threads + [idle]);
    p := new Processor(threads[0], idle, elements);
    StartFirst(threads, idle, elements, p.Cpu());
    var i := 1;
    while i < |threads|
      invariant 1 <= i <= |threads| && fresh(p) && fresh(p.queue) && fresh(p.threads.Values) && p.Valid()
      invariant p.Cpu() == Started(threads, idle, i) && p.threads == elements
    {
      QueueNodes(p);
      StartNext(threads, idle, i);
      p.Resume(threads[i]);
      i := i + 1;
    }
    StartedAll(threads, idle);
  }

  /** The first `n` threads have been started. */
  ghost function Started(threads: seq<Tid>, idle: Tid, n: nat): Cpu
    requires 1 <= n <= |threads|
  {
    var tasks := map t | t in threads + [idle] :: if t in threads[..n] then Task(true, 1) else Task(false, 0);
    Scheduler.Cpu.Cpu(tasks, threads[1..n], threads[0], idle)
  }

  lemma StartFirst(threads: seq<Tid>, idle: Tid, elements: map<Tid, Node>, c: Cpu)
    requires threads != [] && forall t :: t in elements <==> t in threads + [idle]
    requires c.tasks == map t | t in elements :: if t == threads[0] then Task(true, 1) else Task(false, 0)
    requires c.rq == [] && c.current == threads[0] && c.idle == idle
    ensures c == Started(threads, idle, 1)
  {
    assert threads[..1] == [threads[0]] && threads[1..1] == [];
  }

  lemma StartedAll(threads: seq<Tid>, idle: Tid)
    requires threads != [] && idle !in threads
    ensures Started(threads, idle, |threads|) == FirstCpu(threads, idle)
  {
    assert threads[..|threads|] == threads && threads[1..|threads|] == threads[1..];
    assert Started(threads, idle, |threads|).tasks == FirstTasks(threads, idle);
  }

  lemma StartNext(threads: seq<Tid>, idle: Tid, n: nat)
    requires 1 <= n < |threads| && NoDuplicates(threads) && idle !in threads
    ensures threads[n] in Started(threads, idle, n).tasks && threads[n] != idle
    ensures Resume(Started(threads, idle, n), threads[n]) == Started(threads, idle, n + 1)
  {
    assert threads[n] !in threads[..n];
    assert threads[..n + 1] == threads[..n] + [threads[n]];
    assert threads[1..n + 1] == threads[1..n] + [threads[n]];
  }

  /** Two threads outside the kernel, the first of which runs, and a channel 0 that leads to an
      unused channel 1. */
  ghost predicate AboutToMeet(s: State, receiver: Tid, sender: Tid) {
    && Inv(s) && s.cpu.current == receiver && s.cpu.rq == [sender] && s.cpu.idle != receiver
    && receiver in s.pcs && sender in s.pcs && s.pcs[receiver] == User && s.pcs[sender] == User
    && Linked(s.chans) && Route(s.chans, 0) == Some((1, 1))
    && 1 in s.chans && s.chans[1].isOpen && Unused(s.chans[1]) && s.chans[0].isOpen
  }

  /** The receiver waits on channel 1 and the sender runs. */
  ghost predicate OneWaits(s: State, receiver: Tid, sender: Tid) {
    && Inv(s) && s.cpu.current == sender && s.cpu.rq == [] && s.cpu.idle != sender && s.cpu.idle != receiver
      && sender != receiver
    && receiver in s.pcs && sender in s.pcs && s.pcs[receiver] == RecvWait(1) && s.pcs[sender] == User
    && s.cpu.tasks[receiver].count == 0 && s.chans.Keys >= {0, 1}
    && Linked(s.chans) && Route(s.chans, 0) == Some((1, 1)) && s.chans[0].isOpen
    && s.chans[1] == s.chans[1].(sender := None, receiver := Some(receiver), accepted := [], returned := [])
  }

  /** The message lies in the buffer of the receiver, which runs next. */
  ghost predicate Met(s: State, receiver: Tid, msg: Msg) {
    && Inv(s) && s.cpu.rq == [receiver] && s.cpu.idle != receiver
      && (s.cpu.current == s.cpu.idle || s.pcs[s.cpu.current] == User)
    && receiver in s.pcs && s.pcs[receiver] == RecvWait(1)
    && 1 in s.chans && s.chans[1].accepted == [msg] && s.chans[1].returned == []
  }

  lemma ReceiveFirst(s: State, receiver: Tid, sender: Tid)
    requires AboutToMeet(s, receiver, sender)
    ensures Closed(s) && OneWaits(Ipc.Step(s, DoRecv(1)), receiver, sender)
  {
    hide Inv, Closed, BlockCurrent;
    StepKeeps(s, DoRecv(1));
    InvClosed(s);
    RunsOnce(s);
    LastOne(s.cpu, sender);
  }

  lemma LastOne(c: Cpu, next: Tid)
    requires c.current in c.tasks && c.tasks[c.current].count == 1 && c.rq == [next]
    ensures BlockCurrent(c) == c.(tasks := c.tasks[c.current := Task(false, 0)], rq := [], current := next)
  {
    assert c.rq[1..] == [];
  }

  lemma SwitchLast(s: State, receiver: Tid, msg: Msg)
    requires Met(s, receiver, msg)
    ensures Closed(s)
    ensures var t := Ipc.Step(s, DoTick);
      Inv(t) && t.cpu.current == receiver && t.cpu.idle == s.cpu.idle && t.pcs == s.pcs && t.chans == s.chans
  {
    hide Inv, Closed;
    StepKeeps(s, DoTick);
    InvClosed(s);
  }

  lemma RunsOnce(s: State)
    requires Inv(s) && s.cpu.current != s.cpu.idle
    ensures s.cpu.current in s.cpu.tasks && s.cpu.tasks[s.cpu.current].count == 1 && s.cpu.current !in s.cpu.rq
    ensures s.cpu.idle !in s.cpu.rq
  {
  }

  lemma SendSecond(s: State, receiver: Tid, sender: Tid, header: nat, payloads: seq<nat>)
    requires OneWaits(s, receiver, sender)
    ensures Closed(s) && Met(Ipc.Step(s, DoSend(0, header, payloads)), receiver, Msg(header, 1, payloads))
  {
    StepKeeps(s, DoSend(0, header, payloads));
    InvClosed(s);
    hide Inv, Closed;
  }

  /** Two threads meet: what one sends, the other receives. */
  method Rendezvous(receiver: Tid, sender: Tid, idle: Tid, header: nat, payloads: seq<nat>, inline: bool)
    returns (r: Outcome)
    requires receiver != sender && receiver != idle && sender != idle
    ensures r == Received(Msg(header, 1, payloads))
  {
    hide Inv, Closed, Ipc.Step, Fresh, Machine.Shaped, Machine.Chans;
    var m := TwoThreads(receiver, sender, idle);
    ReceiveFirst(m.Abs(), receiver, sender);
    var first := m.ChannelRecv(1);
    SendSecond(m.Abs(), receiver, sender, header, payloads);
    PortsLinked(m);
    var second := m.SysSend(0, header, payloads, inline);
    SwitchLast(m.Abs(), receiver, Msg(header, 1, payloads));
    InvClosed(m.Abs());
    m.Tick();
    SameRoute(m, 1);
    r := m.Continue();
  }

  /** The sender waits on channel 1 with its message, and the receiver runs. */
  ghost predicate OneHolds(s: State, receiver: Tid, sender: Tid, msg: Msg) {
    && Inv(s) && s.cpu.current == receiver && s.cpu.rq == [] && s.cpu.idle != sender && s.cpu.idle != receiver
    && sender != receiver && receiver in s.pcs && sender in s.pcs
    && s.pcs[sender] == SendWait(1, msg) && s.pcs[receiver] == User && s.cpu.tasks[sender].count == 0
    && 1 in s.chans && s.chans[1].isOpen
    && s.chans[1] == s.chans[1].(sender := Some(sender), receiver := None, accepted := [], returned := [])
  }

  /** Both are at channel 1, and the sender runs. */
  ghost predicate BothThere(s: State, receiver: Tid, sender: Tid, msg: Msg) {
    && Inv(s) && s.cpu.current == sender && s.cpu.rq == [] && s.cpu.idle != sender && s.cpu.idle != receiver
    && sender != receiver && receiver in s.pcs && sender in s.pcs
    && s.pcs[sender] == SendWait(1, msg) && s.pcs[receiver] == RecvWait(1) && s.cpu.tasks[receiver].count == 0
    && 1 in s.chans
    && s.chans[1] == s.chans[1].(sender := Some(sender), receiver := Some(receiver), accepted := [], returned := [])
  }

  lemma SendFirst(s: State, receiver: Tid, sender: Tid, header: nat, payloads: seq<nat>)
    requires AboutToMeet(s, sender, receiver)
    ensures Closed(s) && OneHolds(Ipc.Step(s, DoSend(0, header, payloads)), receiver, sender, Msg(header, 1, payloads))
  {
    hide Inv, Closed, BlockCurrent;
    StepKeeps(s, DoSend(0, header, payloads));
    InvClosed(s);
    RunsOnce(s);
    LastOne(s.cpu, receiver);
  }

  lemma ReceiveSecond(s: State, receiver: Tid, sender: Tid, msg: Msg)
    requires OneHolds(s, receiver, sender, msg)
    ensures Closed(s) && BothThere(Ipc.Step(s, DoRecv(1)), receiver, sender, msg)
  {
    hide Inv, Closed, BlockCurrent;
    StepKeeps(s, DoRecv(1));
    InvClosed(s);
    RunsOnce(s);
    LastOne(Resume(s.cpu, sender), sender);
  }

  lemma HandsOver(s: State, receiver: Tid, sender: Tid, msg: Msg)
    requires BothThere(s, receiver, sender, msg)
    ensures Closed(s) && Met(Ipc.Step(s, DoContinue), receiver, msg)
  {
    hide Inv, Closed;
    StepKeeps(s, DoContinue);
    InvClosed(s);
    RunsOnce(s);
  }

  /** Two threads meet, the sender first: it waits with its message until the other receives. */
  method RendezvousSendFirst(receiver: Tid, sender: Tid, idle: Tid, header: nat, payloads: seq<nat>, inline: bool)
    returns (r: Outcome)
    requires receiver != sender && receiver != idle && sender != idle
    ensures r == Received(Msg(header, 1, payloads))
  {
    hide Inv, Closed, Ipc.Step, Fresh, Machine.Shaped, Machine.Chans;
    ghost var msg := Msg(header, 1, payloads);
    var m := TwoThreads(sender, receiver, idle);
    SendFirst(m.Abs(), receiver, sender, header, payloads);
    PortsLinked(m);
    var first := m.SysSend(0, header, payloads, inline);
    ReceiveSecond(m.Abs(), receiver, sender, msg);
    var second := m.ChannelRecv(1);
    HandsOver(m.Abs(), receiver, sender, msg);
    var third := m.Continue();
    SwitchLast(m.Abs(), receiver, msg);
    InvClosed(m.Abs());
    m.Tick();
    SameRoute(m, 1);
    r := m.Continue();
  }

  lemma PortsLinked(m: Machine)
    requires m.Shaped() && Linked(m.Abs().chans)
    ensures Linked(m.ports)
  {
    hide Processor.Valid, Waiters.Valid;
    forall c | c in m.ports ensures c in m.Chans() && m.Chans()[c].linkedTo == m.ports[c].linkedTo
      && m.Chans()[c].transferTo == m.ports[c].transferTo
    {
      PortOf(m, c);
    }
  }

  method TwoThreads(receiver: Tid, sender: Tid, idle: Tid) returns (m: Machine)
    requires receiver != sender && receiver != idle && sender != idle
    ensures fresh(m) && fresh(m.cpu) && fresh(m.cpu.queue) && fresh(m.cpu.threads.Values)
    ensures fresh(m.waits.queues.Values) && fresh(m.waits.threads.Values)
    ensures m.Valid() && AboutToMeet(m.Abs(), receiver, sender)
  {
    hide Inv, Closed, Machine.Shaped, Machine.Chans;
    var unused := Chan(true, None, 1, None, None, [], [], []);
    m := new Machine([receiver, sender], idle, map[0 := unused.(linkedTo := Some(1)), 1 := unused], Msg(0, 0, []));
  }

  /** Every thread is runnable, but not the idle one. */
  function FirstTasks(threads: seq<Tid>, idle: Tid): (m: map<Tid, Task>)
    ensures forall t :: t in m <==> t in threads || t == idle
    ensures forall t :: t in m ==> m[t] == if t == idle then Task(false, 0) else Task(true, 1)
  {
    map t | t in threads + [idle] :: if t == idle then Task(false, 0) else Task(true, 1)
  }

  function ForAll<T>(threads: seq<Tid>, idle: Tid, x: T): (m: map<Tid, T>)
    ensures forall t :: t in m <==> t in threads || t == idle
    ensures forall t :: t in m ==> m[t] == x
  {
    map t | t in threads + [idle] :: x
  }

  lemma FirstSound(c: Cpu, threads: seq<Tid>)
    requires threads != [] && NoDuplicates(threads) && c.idle !in threads
    requires c == Scheduler.Cpu.Cpu(FirstTasks(threads, c.idle), threads[1..], threads[0], c.idle)
    ensures Sound(c) && Once(c)
  {
    hide FirstTasks;
    assert threads == [threads[0]] + threads[1..];
    assert threads[0] !in threads[1..];
  }

  lemma FreshMachine(s: State, threads: seq<Tid>, idle: Tid, blank: Msg)
    requires threads != [] && NoDuplicates(threads) && idle !in threads && s.cpu == FirstCpu(threads, idle)
    requires s.pcs == ForAll(threads, idle, User) && s.bufs == ForAll(threads, idle, blank)
    requires forall c :: c in s.chans ==> Unused(s.chans[c])
    ensures Fresh(s)
  {
    hide FirstTasks, ForAll, NoDuplicates, Sound, Once;
    FirstSound(s.cpu, threads);
    assert s.cpu.tasks.Keys == s.pcs.Keys && s.bufs.Keys == s.pcs.Keys;
  }

  /** Links lead to channels, and so do transfers. */
  ghost predicate Linked(chans: map<Cid, Chan>) {
    forall c :: c in chans && chans[c].linkedTo.Some? ==>
      chans[c].linkedTo.value in chans && chans[chans[c].linkedTo.value].transferTo in chans
  }

  lemma LinkedTo(chans: map<Cid, Chan>, c: Cid)
    requires Linked(chans) && c in chans && chans[c].linkedTo.Some?
    ensures chans[c].linkedTo.value in chans && chans[chans[c].linkedTo.value].transferTo in chans
  {
  }

  lemma InvClosed(s: State)
    requires Inv(s)
    ensures Closed(s) && s.cpu.current in s.pcs && s.cpu.current in s.bufs
    ensures s.pcs[s.cpu.current] != User ==> s.pcs[s.cpu.current].ch in s.chans
  {
  }

  lemma Receives(s: State, c: Cid)
    requires MayDeliver(s, c)
    ensures c in s.chans && s.chans[c].receiver.Some? && s.chans[c].receiver.value in s.cpu.tasks
  {
  }
}
