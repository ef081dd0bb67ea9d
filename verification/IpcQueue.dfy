/** Senders that have to wait are called in the order in which they came. */
module IpcQueue {
  import opened Scheduler
  import opened Ipc
  import opened IpcLog

  /** The current thread goes on inside a send. */
  ghost predicate Acts(s: State, a: Action)
    requires s.cpu.current in s.pcs
  {
    s.cpu.current != s.cpu.idle && (if s.pcs[s.cpu.current] == User then a.DoSend? else a.DoContinue?)
  }

  /** Who came to wait for the sender right of `c` in this step. */
  ghost function Comes(s: State, a: Action, s': State, c: Cid): seq<Tid>
    requires s.cpu.current in s.pcs
  {
    var me := s.cpu.current;
    if Acts(s, a) && me in s'.pcs && s'.pcs[me].SendQueued? && s'.pcs[me].ch == c then [me] else []
  }

  /** A thread that waited for the sender right of `c` can run again. */
  ghost predicate Called(s: State, s': State, t: Tid, c: Cid) {
    t in s.pcs && s.pcs[t].SendQueued? && s.pcs[t].ch == c && !Runs(s, t) && Runs(s', t)
  }

  /** Who was called in this step. */
  ghost function Leaves(s: State, s': State, c: Cid): seq<Tid> {
    if exists t :: Called(s, s', t, c) then
      var t :| Called(s, s', t, c); [t]
    else []
  }

  /** Those waiting, and who comes, are who leaves, and those still waiting. */
  ghost predicate InTurn(s: State, a: Action, s': State, c: Cid)
    requires s.cpu.current in s.pcs
  {
    c in s.chans ==> c in s'.chans && s.chans[c].wq + Comes(s, a, s', c) == Leaves(s, s', c) + s'.chans[c].wq
  }

  lemma NobodyLeaves(s: State, s': State, c: Cid)
    requires forall t :: !Called(s, s', t, c)
    ensures Leaves(s, s', c) == []
  {
  }

  /** Only `w` can be called by a step that may wake `w`. */
  lemma OnlyOne(s: State, s': State, d: Cid, w: Tid, c: Cid)
    requires Inv(s) && Effect(s, s', d, w)
    ensures forall t :: Called(s, s', t, c) ==> t == w
    ensures !Called(s, s', w, c) ==> Leaves(s, s', c) == []
    ensures Called(s, s', w, c) ==> Leaves(s, s', c) == [w]
  {
    hide Inv, Runs, Closed;
    CurrentRuns(s);
    forall t | Called(s, s', t, c) ensures t == w { }
    if !Called(s, s', w, c) { NobodyLeaves(s, s', c); }
  }

  /** The send from its retry loop: a thread that finds the right taken comes last. */
  lemma SlowTurn(s: State, a: Action, d: Cid, msg: Msg, c: Cid)
    requires Inv(s) && d in s.chans && s.cpu.current != s.cpu.idle && Acts(s, a)
    requires s.pcs[s.cpu.current] == User || (s.pcs[s.cpu.current].SendQueued? && s.pcs[s.cpu.current].ch == d)
    ensures Closed(s) && InTurn(s, a, SendSlow(s, d, msg), c)
  {
    hide Inv, Closed, Runs, Effect, Leaves, BlockCurrent, Resume;
    ClosedBy(s);
    var s' := SendSlow(s, d, msg);
    if s.chans[d].sender.Some? {
      QueueEffect(s, d, msg);
      OnlyOne(s, s', d, s.cpu.current, c);
      CurrentRuns(s);
    } else if s.chans[d].receiver.None? {
      WaitEffect(s, d, msg);
      OnlyOne(s, s', d, s.cpu.current, c);
      CurrentRuns(s);
    } else {
      DeliverBefore(s, d);
      DeliverEffect(s, d, msg);
      OnlyOne(s, s', d, s.chans[d].receiver.value, c);
    }
  }

  /** A receive calls the thread that has waited longest, when no sender holds the right. */
  lemma RecvTurn(s: State, a: Action, d: Cid, c: Cid)
    requires MayRecv(s, d) && a.DoRecv?
    ensures Closed(s) && InTurn(s, a, Recv(s, d), c)
  {
    hide Inv, Closed, Runs, Effect, Leaves, Recv;
    ClosedBy(s);
    var w := Wakes(s, d);
    WakesBlocked(s, d);
    RecvEffect(s, d);
    RecvShape(s, d);
    CurrentRuns(s);
    OnlyOne(s, Recv(s, d), d, w, c);
  }

  lemma ContinueTurn(s: State, a: Action, c: Cid)
    requires Inv(s) && a.DoContinue? && s.cpu.current != s.cpu.idle && s.pcs[s.cpu.current] != User
    ensures Closed(s) && InTurn(s, a, Continue(s), c)
  {
    hide Inv, Closed, Runs, Effect, Leaves, SendSlow, Resume;
    ClosedBy(s);
    ChannelKnown(s);
    match s.pcs[s.cpu.current]
    case SendQueued(d, msg) => SlowTurn(s, a, d, msg, c);
    case SendWait(d, msg) =>
      WaitedSenderReady(s, d, msg);
      DeliverBefore(s, d);
      DeliverEffect(s, d, msg);
      OnlyOne(s, Continue(s), d, s.chans[d].receiver.value, c);
    case RecvWait(d) =>
      ReturnReady(s, d);
      SameRunning(s, Continue(s), c);
  }

  lemma SameRunning(s: State, s': State, c: Cid)
    requires s'.cpu.tasks == s.cpu.tasks
    ensures Leaves(s, s', c) == []
  {
    NobodyLeaves(s, s', c);
  }

  lemma StepTurn(s: State, a: Action, c: Cid)
    requires Inv(s)
    ensures Closed(s) && s.cpu.current in s.pcs && InTurn(s, a, Ipc.Step(s, a), c)
  {
    hide Inv, Closed, InTurn, Send, Recv, SendSlow, Continue, Switch, Sound;
    ClosedBy(s);
    var me := s.cpu.current;
    if me != s.cpu.idle && s.pcs[me] == User && a.DoSend? && Route(s.chans, a.src).Some? {
      var r := Route(s.chans, a.src).value;
      EitherPath(s, r.0, Msg(a.header, r.1, a.payloads));
      SlowTurn(s, a, r.0, Msg(a.header, r.1, a.payloads), c);
    } else if me != s.cpu.idle && s.pcs[me] == User && a.DoRecv? && Ipc.Step(s, a) != s {
      RecvTurn(s, a, a.ch, c);
    } else if me != s.cpu.idle && s.pcs[me] != User && a.DoContinue? {
      ContinueTurn(s, a, c);
    } else {
      QuietTurn(s, a, c);
    }
  }

  /** A step in which no thread moves inside the kernel. */
  lemma QuietTurn(s: State, a: Action, c: Cid)
    requires Inv(s) && (Ipc.Step(s, a) == s || Ipc.Step(s, a) == s.(cpu := Switch(s.cpu)))
    requires Acts(s, a) ==> s.pcs[s.cpu.current] == User
    ensures Closed(s) && InTurn(s, a, Ipc.Step(s, a), c)
  {
    hide Closed, Ipc.Step, Leaves, Switch, ThreadOk, ChanOk;
    SameTasks(s, s.(cpu := Switch(s.cpu)));
    SameRunning(s, Ipc.Step(s, a), c);
    if c in s.chans { assert [] + s.chans[c].wq == s.chans[c].wq + []; }
  }

  // ---- Every run.

  ghost function Arrivals(states: seq<State>, actions: seq<Action>, n: nat, c: Cid): seq<Tid>
    requires Ipc.Run(states, actions) && n <= |actions|
  {
    if n == 0 then []
    else Arrivals(states, actions, n - 1, c) + Comes(states[n - 1], actions[n - 1], states[n], c)
  }

  ghost function Departures(states: seq<State>, n: nat, c: Cid): seq<Tid>
    requires n < |states|
  {
    if n == 0 then [] else Departures(states, n - 1, c) + Leaves(states[n - 1], states[n], c)
  }

  /** First come, first served: in every run, the threads that came to wait on a channel, in order, are those
      that were called, in order, and then those still in the queue. */
  lemma {:induction false} FirstServed(states: seq<State>, actions: seq<Action>, n: nat, c: Cid)
    requires Ipc.Run(states, actions) && Fresh(states[0]) && n <= |actions| && c in states[0].chans
    ensures c in states[n].chans
    ensures Arrivals(states, actions, n, c) == Departures(states, n, c) + states[n].chans[c].wq
  {
    hide Inv, Fresh, Ipc.Step, Comes, Leaves;
    if n == 0 {
      NobodyQueued(states[0], c);
    } else {
      FirstServed(states, actions, n - 1, c);
      RunsKeep(states, actions, n - 1);
      StepTurn(states[n - 1], actions[n - 1], c);
      var came, left := Comes(states[n - 1], actions[n - 1], states[n], c), Leaves(states[n - 1], states[n], c);
      InOrder(Departures(states, n - 1, c), states[n - 1].chans[c].wq, came, left, states[n].chans[c].wq);
    }
  }

  lemma InOrder(gone: seq<Tid>, wq: seq<Tid>, came: seq<Tid>, left: seq<Tid>, wq': seq<Tid>)
    requires wq + came == left + wq'
    ensures (gone + wq) + came == (gone + left) + wq'
  {
    assert (gone + wq) + came == gone + (wq + came);
    assert (gone + left) + wq' == gone + (left + wq');
  }

  lemma NobodyQueued(s: State, c: Cid)
    requires Fresh(s) && c in s.chans
    ensures s.chans[c].wq == []
  {
  }
}
