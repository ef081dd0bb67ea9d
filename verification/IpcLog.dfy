/** What was sent arrives: the messages that threads ask to have sent, the messages accepted, and
    those held by senders that wait, over every run. */
module IpcLog {
  import opened Values
  import opened Scheduler
  import opened Ipc

  /** A message and the thread that sends it. */
  datatype Letter = Letter(from: Tid, msg: Msg)

  /** What a step asks to have sent to channel `c`: a send by the running thread, on an open channel
      whose peer hands over to `c`. The message says which peer that was. */
  ghost function Asks(s: State, a: Action, c: Cid): seq<Letter> {
    var me := s.cpu.current;
    if a.DoSend? && me != s.cpu.idle && me in s.pcs && s.pcs[me] == User && Leads(s.chans, a.src, c) then
      [Letter(me, Msg(a.header, s.chans[a.src].linkedTo.value, a.payloads))]
    else []
  }

  ghost predicate Leads(chans: map<Cid, Chan>, src: Cid, c: Cid) {
    && src in chans && chans[src].isOpen && chans[src].linkedTo.Some? && chans[src].linkedTo.value in chans
    && chans[chans[src].linkedTo.value].transferTo == c && c in chans
  }

  /** What a step accepts on channel `c`, from the thread that makes the step. */
  ghost function Accepts(s: State, s': State, c: Cid): seq<Letter> {
    if c in s.chans && c in s'.chans && |s'.chans[c].accepted| > |s.chans[c].accepted| then
      [Letter(s.cpu.current, s'.chans[c].accepted[|s.chans[c].accepted|])]
    else []
  }

  /** What a thread still holds for channel `c`. */
  ghost function Held(s: State, t: Tid, c: Cid): seq<Msg> {
    if Holds(s, t, c) then [s.pcs[t].msg] else []
  }

  ghost predicate Holds(s: State, t: Tid, c: Cid) {
    t in s.pcs && (s.pcs[t].SendQueued? || s.pcs[t].SendWait?) && s.pcs[t].ch == c
  }

  // ---- Over a run.

  ghost function Asked(states: seq<State>, actions: seq<Action>, n: nat, c: Cid): seq<Letter>
    requires n <= |actions| < |states|
  {
    if n == 0 then [] else Asked(states, actions, n - 1, c) + Asks(states[n - 1], actions[n - 1], c)
  }

  ghost function Accepted(states: seq<State>, n: nat, c: Cid): seq<Letter>
    requires n < |states|
  {
    if n == 0 then [] else Accepted(states, n - 1, c) + Accepts(states[n - 1], states[n], c)
  }

  /** The messages of one thread. */
  ghost function From(log: seq<Letter>, t: Tid): seq<Msg> {
    if log == [] then []
    else From(log[..|log| - 1], t) + if log[|log| - 1].from == t then [log[|log| - 1].msg] else []
  }

  ghost function Texts(log: seq<Letter>): (r: seq<Msg>)
    ensures |r| == |log| && forall i :: 0 <= i < |log| ==> r[i] == log[i].msg
  {
    seq(|log|, i requires 0 <= i < |log| => log[i].msg)
  }

  lemma FromNext(log: seq<Letter>, x: seq<Letter>, t: Tid)
    requires |x| <= 1
    ensures From(log + x, t) == From(log, t) + From(x, t)
  {
    if x == [] {
      assert log + x == log;
    } else {
      assert (log + x)[..|log|] == log && x[..0] == [];
    }
  }

  // ---- One step.

  /** One step moves what a thread asked for to what it holds or to what is accepted. */
  ghost predicate Balanced(s: State, a: Action, s': State, t: Tid, c: Cid) {
    Held(s, t, c) + From(Asks(s, a, c), t) == From(Accepts(s, s', c), t) + Held(s', t, c)
  }

  lemma DeliverBalance(s: State, dst: Cid, msg: Msg, s': State, t: Tid, c: Cid)
    requires Closed(s) && dst in s.chans && s.chans[dst].receiver.Some?
    requires s.chans[dst].receiver.value in s.cpu.tasks
    requires s' == Deliver(s, dst, msg)
    ensures From(Accepts(s, s', c), t) == if t == s.cpu.current && c == dst then [msg] else []
    ensures Held(s', t, c) == if t == s.cpu.current then [] else Held(s, t, c)
    ensures c in s.chans ==>
      c in s'.chans && s'.chans[c].accepted == s.chans[c].accepted + if c == dst then [msg] else []
  {
    hide Resume, Closed;
    OneLetter(Accepts(s, s', c), t);
  }

  lemma OneLetter(log: seq<Letter>, t: Tid)
    requires |log| <= 1
    ensures From(log, t) == if log != [] && log[0].from == t then [log[0].msg] else []
  {
    if log != [] { assert log[..0] == []; }
  }

  /** The slow path: the message is accepted, or the thread holds it. */
  lemma SlowBalance(s: State, dst: Cid, msg: Msg, t: Tid, c: Cid)
    requires Closed(s) && dst in s.chans
    ensures var s' := SendSlow(s, dst, msg);
      && From(Accepts(s, s', c), t) + Held(s', t, c)
         == (if t != s.cpu.current then Held(s, t, c) else if c == dst then [msg] else [])
      && (c in s.chans ==> c in s'.chans && s'.chans[c].accepted == s.chans[c].accepted + Texts(Accepts(s, s', c)))
  {
    hide Closed, Resume, BlockCurrent;
    var s' := SendSlow(s, dst, msg);
    var ch := s.chans[dst];
    InTasks(s, dst);
    OneLetter(Accepts(s, s', c), t);
    if ch.sender.None? && ch.receiver.Some? {
      var u := s.(chans := s.chans[dst := ch.(sender := Some(s.cpu.current))]);
      assert s' == Deliver(u, dst, msg);
    }
  }

  lemma InTasks(s: State, c: Cid)
    requires Closed(s) && c in s.chans
    ensures s.chans[c].receiver.Some? ==> s.chans[c].receiver.value in s.cpu.tasks
    ensures s.cpu.current in s.cpu.tasks && s.cpu.current in s.pcs && s.cpu.current in s.bufs
  {
  }

  /** What a step keeps of a channel's log of accepted messages. */
  ghost predicate LogGrows(s: State, s': State, c: Cid) {
    c in s.chans ==> c in s'.chans && s'.chans[c].accepted == s.chans[c].accepted + Texts(Accepts(s, s', c))
  }

  /** A step in which nobody's message moves. */
  lemma QuietBalance(s: State, a: Action, s': State, t: Tid, c: Cid)
    requires Asks(s, a, c) == [] && s'.chans.Keys == s.chans.Keys
    requires forall d :: d in s.chans ==> s'.chans[d].accepted == s.chans[d].accepted
    requires Held(s', t, c) == Held(s, t, c)
    ensures Balanced(s, a, s', t, c) && LogGrows(s, s', c)
  {
    hide Asks, Held;
  }

  lemma SendBalance(s: State, a: Action, t: Tid, c: Cid)
    requires Inv(s) && a.DoSend? && s.cpu.current != s.cpu.idle && s.pcs[s.cpu.current] == User
    ensures Balanced(s, a, Ipc.Step(s, a), t, c) && LogGrows(s, Ipc.Step(s, a), c)
  {
    hide Inv, Closed, SendSlow, Texts;
    ClosedBy(s);
    var r := Route(s.chans, a.src);
    OneLetter(Asks(s, a, c), t);
    if r.None? {
      QuietBalance(s, a, s, t, c);
    } else {
      var msg := Msg(a.header, r.value.1, a.payloads);
      EitherPath(s, r.value.0, msg);
      SlowBalance(s, r.value.0, msg, t, c);
    }
  }

  lemma ClosedBy(s: State)
    requires Inv(s)
    ensures Closed(s) && s.cpu.current in s.pcs && s.cpu.current in s.cpu.tasks && s.cpu.current in s.bufs
  {
    hide ThreadOk, ChanOk;
  }

  lemma RecvBalance(s: State, a: Action, t: Tid, c: Cid)
    requires Inv(s) && a.DoRecv? && s.cpu.current != s.cpu.idle && s.pcs[s.cpu.current] == User
    ensures Balanced(s, a, Ipc.Step(s, a), t, c) && LogGrows(s, Ipc.Step(s, a), c)
  {
    hide Inv, Closed, Balanced, LogGrows, BlockCurrent;
    ClosedBy(s);
    QuietBalance(s, a, Ipc.Step(s, a), t, c);
  }

  /** A thread in the kernel goes on. */
  lemma ContinueBalance(s: State, a: Action, t: Tid, c: Cid)
    requires Inv(s) && a.DoContinue? && s.cpu.current != s.cpu.idle && s.pcs[s.cpu.current] != User
    ensures Balanced(s, a, Ipc.Step(s, a), t, c) && LogGrows(s, Ipc.Step(s, a), c)
  {
    hide Inv, Closed, SendSlow, Deliver, Texts, BlockCurrent, Resume;
    ClosedBy(s);
    assert Asks(s, a, c) == [];
    match s.pcs[s.cpu.current]
    case SendQueued(dst, msg) =>
      ChannelKnown(s);
      SlowBalance(s, dst, msg, t, c);
    case SendWait(dst, msg) =>
      WaitedSenderReady(s, dst, msg);
      InTasks(s, dst);
      DeliverBalance(s, dst, msg, Deliver(s, dst, msg), t, c);
      DeliverLog(s, dst, msg, c);
    case RecvWait(d) =>
      ChannelKnown(s);
      ReturnReady(s, d);
      QuietBalance(s, a, Ipc.Step(s, a), t, c);
  }

  lemma ChannelKnown(s: State)
    requires Closed(s) && s.pcs[s.cpu.current] != User
    ensures s.pcs[s.cpu.current].ch in s.chans
  {
  }

  lemma DeliverLog(s: State, dst: Cid, msg: Msg, c: Cid)
    requires dst in s.chans && s.chans[dst].receiver.Some? && s.chans[dst].receiver.value in s.cpu.tasks
    ensures LogGrows(s, Deliver(s, dst, msg), c)
  {
    hide Resume;
  }

  lemma StepBalance(s: State, a: Action, t: Tid, c: Cid)
    requires Inv(s)
    ensures Closed(s) && Balanced(s, a, Ipc.Step(s, a), t, c) && LogGrows(s, Ipc.Step(s, a), c)
  {
    hide Inv, Closed, Balanced, LogGrows, Send, Recv, Continue, Switch;
    ClosedBy(s);
    var me := s.cpu.current;
    if me != s.cpu.idle && s.pcs[me] == User && a.DoSend? {
      SendBalance(s, a, t, c);
    } else if me != s.cpu.idle && s.pcs[me] == User && a.DoRecv? {
      RecvBalance(s, a, t, c);
    } else if me != s.cpu.idle && s.pcs[me] != User && a.DoContinue? {
      ContinueBalance(s, a, t, c);
    } else {
      QuietBalance(s, a, Ipc.Step(s, a), t, c);
    }
  }

  // ---- Every run.

  lemma NothingHeld(s: State, t: Tid, c: Cid)
    requires Fresh(s)
    ensures Held(s, t, c) == [] && (c in s.chans ==> s.chans[c].accepted == [])
  {
  }

  /** In every run, for every thread and every channel: the messages the thread asked to have sent
      there, in order, are those of it that were accepted, in order, and then the one it still holds. */
  lemma {:induction false} SentIsAccepted(states: seq<State>, actions: seq<Action>, n: nat, t: Tid, c: Cid)
    requires Ipc.Run(states, actions) && Fresh(states[0]) && n <= |actions|
    ensures From(Asked(states, actions, n, c), t) == From(Accepted(states, n, c), t) + Held(states[n], t, c)
  {
    hide Inv, Ipc.Step, Fresh, Held, Asks, Accepts, From;
    if n == 0 {
      NothingHeld(states[0], t, c);
      assert From([], t) == [] by { OneLetter([], t); }
    } else {
      SentIsAccepted(states, actions, n - 1, t, c);
      RunsKeep(states, actions, n - 1);
      var s, a, s' := states[n - 1], actions[n - 1], states[n];
      StepBalance(s, a, t, c);
      ShortLogs(s, a, s', c);
      FromNext(Asked(states, actions, n - 1, c), Asks(s, a, c), t);
      FromNext(Accepted(states, n - 1, c), Accepts(s, s', c), t);
      var x, h, p, q, h' := From(Accepted(states, n - 1, c), t), Held(s, t, c), From(Asks(s, a, c), t),
        From(Accepts(s, s', c), t), Held(s', t, c);
      assert x + h + p == x + (h + p) == x + (q + h') == x + q + h';
    }
  }

  lemma ShortLogs(s: State, a: Action, s': State, c: Cid)
    ensures |Asks(s, a, c)| <= 1 && |Accepts(s, s', c)| <= 1
  {
  }

  /** The log of a channel is what was accepted on it. */
  lemma {:induction false} AcceptedLog(states: seq<State>, actions: seq<Action>, n: nat, c: Cid)
    requires Ipc.Run(states, actions) && Fresh(states[0]) && n <= |actions| && c in states[0].chans
    ensures c in states[n].chans && states[n].chans[c].accepted == Texts(Accepted(states, n, c))
  {
    hide Inv, Ipc.Step, Fresh, Accepts, LogGrows, Texts, Closed, Balanced;
    if n == 0 {
      NothingHeld(states[0], 0, c);
    } else {
      AcceptedLog(states, actions, n - 1, c);
      RunsKeep(states, actions, n - 1);
      StepBalance(states[n - 1], actions[n - 1], 0, c);
      LogNext(states[n - 1], states[n], Accepted(states, n - 1, c), c);
    }
  }

  lemma LogNext(s: State, s': State, log: seq<Letter>, c: Cid)
    requires LogGrows(s, s', c) && c in s.chans && s.chans[c].accepted == Texts(log)
    ensures c in s'.chans && s'.chans[c].accepted == Texts(log + Accepts(s, s', c))
  {
    hide Accepts;
  }

  lemma {:induction false} CountFrom(log: seq<Letter>, x: Letter)
    ensures multiset(log)[x] == multiset(From(log, x.from))[x.msg]
  {
    if log != [] {
      var n := |log| - 1;
      CountFrom(log[..n], x);
      assert log == log[..n] + [log[n]];
    }
  }

  /** In every run, every letter asked for is accepted as often as it was asked for, but for the one
      that its sender still holds; nothing else is accepted. */
  lemma NoneLostNoneMade(states: seq<State>, actions: seq<Action>, n: nat, x: Letter, c: Cid)
    requires Ipc.Run(states, actions) && Fresh(states[0]) && n <= |actions|
    ensures multiset(Asked(states, actions, n, c))[x]
      == multiset(Accepted(states, n, c))[x] + if Held(states[n], x.from, c) == [x.msg] then 1 else 0
  {
    hide Inv, Ipc.Step, Fresh, Asked, Accepted, From, Holds;
    CountFrom(Asked(states, actions, n, c), x);
    CountFrom(Accepted(states, n, c), x);
    SentIsAccepted(states, actions, n, x.from, c);
  }

  /** In every run, what `recv` returned on a channel is the beginning of what was accepted there, and
      at most one accepted message has not been returned. */
  lemma ReturnedWasAccepted(states: seq<State>, actions: seq<Action>, n: nat, c: Cid)
    requires Ipc.Run(states, actions) && Fresh(states[0]) && n <= |actions| && c in states[0].chans
    ensures c in states[n].chans && states[n].chans[c].returned <= Texts(Accepted(states, n, c))
    ensures |Accepted(states, n, c)| <= |states[n].chans[c].returned| + 1
  {
    hide Inv, Ipc.Step, Fresh, Accepted;
    AcceptedLog(states, actions, n, c);
    InOrderOnce(states, actions, n, c);
  }
}
