/** Rendezvous message passing: a sender right and a receiver right per channel, a wait
    queue of senders, and one delivery per pair of rights. */
module Ipc {
  import opened Values
  import opened Scheduler

  type Cid = nat

  datatype Msg = Msg(header: nat, sentFrom: Cid, payloads: seq<nat>)

  /** Where a thread stands: outside the kernel, or at one of the three places that block. */
  datatype Pc =
    | User
    | RecvWait(ch: Cid)
    | SendQueued(ch: Cid, msg: Msg)
    | SendWait(ch: Cid, msg: Msg)

  datatype Chan = Chan(isOpen: bool, linkedTo: Option<Cid>, transferTo: Cid,
                       sender: Option<Tid>, receiver: Option<Tid>, wq: seq<Tid>,
                       accepted: seq<Msg>, returned: seq<Msg>)

  datatype State = State(cpu: Cpu, pcs: map<Tid, Pc>, bufs: map<Tid, Msg>, chans: map<Cid, Chan>)

  datatype Error = InvalidCh | NotLinked | InUse

  // ---- Steps of the kernel, each up to its return or its next block.

  ghost function Blocks(s: State, pc: Pc): State
    requires s.cpu.current in s.cpu.tasks
  {
    s.(pcs := s.pcs[s.cpu.current := pc], cpu := BlockCurrent(s.cpu))
  }

  /** The message goes into the waiting receiver's buffer and the receiver is resumed. */
  ghost function Deliver(s: State, dst: Cid, msg: Msg): State
    requires dst in s.chans && s.chans[dst].receiver.Some? && s.chans[dst].receiver.value in s.cpu.tasks
  {
    var r := s.chans[dst].receiver.value;
    s.(bufs := s.bufs[r := msg],
       cpu := Resume(s.cpu, r),
       pcs := s.pcs[s.cpu.current := User],
       chans := s.chans[dst := s.chans[dst].(accepted := s.chans[dst].accepted + [msg])])
  }

  /** The slow path from its retry loop: take the sender right or queue up; then deliver or wait. */
  ghost function SendSlow(s: State, dst: Cid, msg: Msg): State
    requires Closed(s) && dst in s.chans
  {
    var ch := s.chans[dst];
    if ch.sender.Some? then
      Blocks(s.(chans := s.chans[dst := ch.(wq := ch.wq + [s.cpu.current])]), SendQueued(dst, msg))
    else
      var t := s.(chans := s.chans[dst := ch.(sender := Some(s.cpu.current))]);
      if ch.receiver.None? then Blocks(t, SendWait(dst, msg)) else Deliver(t, dst, msg)
  }

  /** A send: at once when the receiver is waiting and nobody else is sending, else the slow path. */
  ghost function Send(s: State, dst: Cid, msg: Msg): State
    requires Closed(s) && dst in s.chans
  {
    var ch := s.chans[dst];
    if ch.sender.None? && ch.receiver.Some? then
      Deliver(s.(chans := s.chans[dst := ch.(sender := Some(s.cpu.current))]), dst, msg)
    else
      SendSlow(s, dst, msg)
  }

  /** The slow path does what the fast one does where that can be taken. */
  lemma EitherPath(s: State, dst: Cid, msg: Msg)
    requires Closed(s) && dst in s.chans
    ensures Send(s, dst, msg) == SendSlow(s, dst, msg)
  {
    hide Closed;
  }

  /** A receive with the receiver right free: wake the sender who holds the right, or the first
      in the queue, and wait. */
  ghost function Recv(s: State, c: Cid): State
    requires Closed(s) && c in s.chans
  {
    var me, ch := s.cpu.current, s.chans[c];
    var t := s.(chans := s.chans[c := ch.(receiver := Some(me))]);
    var u :=
      if ch.sender.Some? then t.(cpu := Resume(t.cpu, ch.sender.value))
      else if ch.wq != [] then
        t.(cpu := Resume(t.cpu, ch.wq[0]), chans := t.chans[c := t.chans[c].(wq := ch.wq[1..])])
      else t;
    Blocks(u, RecvWait(c))
  }

  /** The receiver goes on after its wait. */
  ghost function RecvResumed(s: State, c: Cid): State
    requires Closed(s) && c in s.chans
  {
    var me, ch := s.cpu.current, s.chans[c];
    if ch.sender.None? then Blocks(s, RecvWait(c))
    else s.(pcs := s.pcs[me := User],
            chans := s.chans[c := ch.(sender := None, receiver := None, returned := ch.returned + [s.bufs[me]])])
  }

  /** The current thread goes on from where it blocked. */
  ghost function Continue(s: State): State
    requires Closed(s)
  {
    match s.pcs[s.cpu.current]
    case User => s
    case SendQueued(dst, msg) => SendSlow(s, dst, msg)
    case SendWait(dst, msg) => if s.chans[dst].receiver.Some? then Deliver(s, dst, msg) else s
    case RecvWait(c) => RecvResumed(s, c)
  }

  datatype Action = DoSend(src: Cid, header: nat, payloads: seq<nat>) | DoRecv(ch: Cid) | DoContinue | DoTick

  /** Where a send on `src` goes, and the channel it is seen to come from. */
  function Route(chans: map<Cid, Chan>, src: Cid): (r: Option<(Cid, Cid)>)
    ensures r.Some? ==> r.value.0 in chans
  {
    if src in chans && chans[src].isOpen && chans[src].linkedTo.Some? && chans[src].linkedTo.value in chans then
      var linked := chans[src].linkedTo.value;
      if chans[linked].transferTo in chans then Some((chans[linked].transferTo, linked)) else None
    else None
  }

  /** One step of the machine. Interrupts are off inside a call, so a timer tick only
      switches a thread outside the kernel. A refused call changes nothing. */
  ghost function Step(s: State, a: Action): State
    requires Closed(s)
  {
    var me := s.cpu.current;
    if me == s.cpu.idle then (if a.DoTick? then s.(cpu := Switch(s.cpu)) else s)
    else if s.pcs[me] != User then (if a.DoContinue? then Continue(s) else s)
    else
      match a
      case DoSend(src, header, payloads) =>
        var r := Route(s.chans, src);
        if r.None? then s else Send(s, r.value.0, Msg(header, r.value.1, payloads))
      case DoRecv(c) =>
        if c in s.chans && s.chans[c].isOpen && s.chans[c].receiver.None? then Recv(s, c) else s
      case DoContinue => s
      case DoTick => s.(cpu := Switch(s.cpu))
  }

  // ---- The invariant.

  /** All names are known. */
  ghost predicate Closed(s: State) {
    && s.cpu.current in s.cpu.tasks && s.cpu.idle in s.cpu.tasks
    && s.pcs.Keys == s.cpu.tasks.Keys && s.bufs.Keys == s.cpu.tasks.Keys
    && (forall c :: c in s.chans && s.chans[c].sender.Some? ==> s.chans[c].sender.value in s.cpu.tasks)
    && (forall c :: c in s.chans && s.chans[c].receiver.Some? ==> s.chans[c].receiver.value in s.cpu.tasks)
    && (forall c, t :: c in s.chans && t in s.chans[c].wq ==> t in s.cpu.tasks)
    && (forall t :: t in s.pcs && s.pcs[t] != User ==> s.pcs[t].ch in s.chans)
  }

  ghost predicate Runs(s: State, t: Tid) {
    t in s.cpu.tasks && s.cpu.tasks[t].runnable
  }

  /** `t` is in the kernel because of channel `c`. */
  ghost predicate At(s: State, t: Tid, c: Cid) {
    t in s.pcs && s.pcs[t] != User && s.pcs[t].ch == c
  }

  /** A queued sender that has been woken and will try for the right again. */
  ghost predicate Woken(s: State, t: Tid, c: Cid) {
    At(s, t, c) && s.pcs[t].SendQueued? && Runs(s, t)
  }

  ghost predicate ThreadOk(s: State, t: Tid)
    requires Closed(s) && t in s.pcs
  {
    match s.pcs[t]
    case User => t == s.cpu.idle || Runs(s, t)
    case RecvWait(c) => s.chans[c].receiver == Some(t)
    case SendQueued(c, _) => Runs(s, t) || t in s.chans[c].wq
    case SendWait(c, _) => s.chans[c].sender == Some(t)
  }

  /** The wait queue holds blocked senders to this channel, each once. */
  ghost predicate QueueOk(s: State, c: Cid)
    requires c in s.chans
  {
    && NoDuplicates(s.chans[c].wq)
    && (forall t :: t in s.chans[c].wq ==> At(s, t, c) && s.pcs[t].SendQueued? && !Runs(s, t))
  }

  /** The thread that holds the sender right waits for a receiver. */
  ghost predicate SenderWaits(s: State, c: Cid)
    requires c in s.chans
  {
    var ch := s.chans[c];
    ch.sender.Some? && At(s, ch.sender.value, c) && s.pcs[ch.sender.value].SendWait?
  }

  /** A message lies in the receiver's buffer and the receiver has been resumed. */
  ghost predicate Delivered(s: State, c: Cid)
    requires c in s.chans
  {
    var ch := s.chans[c];
    ch.sender.Some? && !SenderWaits(s, c)
  }

  ghost predicate RightsOk(s: State, c: Cid)
    requires c in s.chans
  {
    var ch := s.chans[c];
    && (ch.receiver.Some? ==> At(s, ch.receiver.value, c) && s.pcs[ch.receiver.value].RecvWait?)
    && (ch.receiver.Some? ==> (Runs(s, ch.receiver.value) <==> Delivered(s, c)))
    && (SenderWaits(s, c) ==> (Runs(s, ch.sender.value) <==> ch.receiver.Some?))
    && (Delivered(s, c) ==> ch.receiver.Some?)
  }

  /** Messages returned so far are those accepted, in order; the one not yet returned, if
      any, is in the receiver's buffer. */
  ghost predicate LogOk(s: State, c: Cid)
    requires c in s.chans
  {
    var ch := s.chans[c];
    if Delivered(s, c) && ch.receiver.Some? && ch.receiver.value in s.bufs
    then ch.accepted == ch.returned + [s.bufs[ch.receiver.value]]
    else ch.accepted == ch.returned
  }

  /** A receiver waiting beside a queue of senders is about to be served. */
  ghost predicate NoLostWakeup(s: State, c: Cid)
    requires c in s.chans
  {
    var ch := s.chans[c];
    ch.receiver.Some? && !Runs(s, ch.receiver.value) && ch.wq != [] ==>
      ch.sender.Some? || exists t :: Woken(s, t, c)
  }

  ghost predicate ChanOk(s: State, c: Cid)
    requires c in s.chans
  {
    QueueOk(s, c) && RightsOk(s, c) && LogOk(s, c) && NoLostWakeup(s, c)
  }

  /** Each thread is resumed at most once per wait. */
  ghost predicate Once(c: Cpu) {
    forall t :: t in c.tasks ==> c.tasks[t].count <= 1
  }

  ghost predicate Inv(s: State) {
    && Closed(s) && Sound(s.cpu) && Once(s.cpu) && s.pcs[s.cpu.idle] == User
    && (forall t :: t in s.pcs ==> ThreadOk(s, t))
    && (forall c :: c in s.chans ==> ChanOk(s, c))
  }

  // ---- Frames.

  /** From `s` to `s'` nothing about channel `c` changes. */
  ghost predicate Aside(s: State, s': State, c: Cid) {
    && c in s.chans && c in s'.chans && s.chans[c] == s'.chans[c]
    && (forall t :: At(s, t, c) ==> t in s'.pcs && s'.pcs[t] == s.pcs[t] && (Runs(s', t) <==> Runs(s, t)))
    && (forall t :: At(s, t, c) ==> t in s.bufs && t in s'.bufs && s'.bufs[t] == s.bufs[t])
    && (forall t :: At(s', t, c) ==> At(s, t, c))
  }

  lemma AsideOk(s: State, s': State, c: Cid)
    requires Aside(s, s', c) && ChanOk(s, c)
    ensures ChanOk(s', c)
  {
    assert SenderWaits(s, c) <==> SenderWaits(s', c);
    if exists t :: Woken(s, t, c) {
      var t :| Woken(s, t, c);
      assert Woken(s', t, c);
    }
  }

  // ---- What the scheduler's operations do to who runs.

  lemma ResumeRuns(s: State, t: Tid)
    requires t in s.cpu.tasks && Sound(s.cpu) && t != s.cpu.idle && !Runs(s, t) && Once(s.cpu)
    ensures var s' := s.(cpu := Resume(s.cpu, t));
      && Sound(s'.cpu) && Once(s'.cpu) && Runs(s', t)
      && (forall u :: u != t ==> (Runs(s', u) <==> Runs(s, u)))
      && s'.cpu.tasks.Keys == s.cpu.tasks.Keys && s'.cpu.current == s.cpu.current && s'.cpu.idle == s.cpu.idle
  {
    ResumeSound(s.cpu, t);
  }

  lemma BlockRuns(s: State)
    requires Sound(s.cpu) && s.cpu.current != s.cpu.idle && Once(s.cpu)
    ensures var s' := s.(cpu := BlockCurrent(s.cpu));
      && Sound(s'.cpu) && Once(s'.cpu) && !Runs(s', s.cpu.current)
      && (forall u :: u != s.cpu.current ==> (Runs(s', u) <==> Runs(s, u)))
      && s'.cpu.tasks.Keys == s.cpu.tasks.Keys && s'.cpu.idle == s.cpu.idle
  {
    BlockSound(s.cpu);
  }

  /** A step of the current thread that concerns channel `c` only and may also wake `w`, a
      thread at `c`. */
  ghost predicate Effect(s: State, s': State, c: Cid, w: Tid) {
    var me := s.cpu.current;
    && Closed(s) && c in s.chans && me != s.cpu.idle
    && s'.cpu.tasks.Keys == s.cpu.tasks.Keys && s'.cpu.idle == s.cpu.idle && s'.cpu.current in s'.cpu.tasks
    && s'.pcs.Keys == s.pcs.Keys && s'.bufs.Keys == s.bufs.Keys && s'.chans.Keys == s.chans.Keys
    && (s.pcs[me] == User || s.pcs[me].ch == c) && (s'.pcs[me] == User || s'.pcs[me].ch == c)
    && (w == me || At(s, w, c))
    && (forall t :: t in s.pcs && t != me ==> s'.pcs[t] == s.pcs[t])
    && (forall t :: t in s.bufs && !At(s, t, c) ==> s'.bufs[t] == s.bufs[t])
    && (forall t :: t != me && t != w ==> (Runs(s', t) <==> Runs(s, t)))
    && (forall d :: d in s.chans && d != c ==> s'.chans[d] == s.chans[d])
  }

  lemma EffectOthers(s: State, s': State, c: Cid, w: Tid, d: Cid)
    requires Inv(s) && Effect(s, s', c, w) && d in s.chans && d != c
    ensures ChanOk(s', d)
  {
    hide ThreadOk, Sound, Once, ChanOk;
    assert Aside(s, s', d);
    AsideOk(s, s', d);
  }

  /** The names in the new state are known if those at `c` are. */
  lemma EffectClosed(s: State, s': State, c: Cid, w: Tid)
    requires Effect(s, s', c, w)
    requires s'.chans[c].sender.Some? ==> s'.chans[c].sender.value in s.cpu.tasks
    requires s'.chans[c].receiver.Some? ==> s'.chans[c].receiver.value in s.cpu.tasks
    requires forall t :: t in s'.chans[c].wq ==> t in s.cpu.tasks
    ensures Closed(s')
  {
    hide Runs;
  }

  lemma EffectThread(s: State, s': State, c: Cid, w: Tid, t: Tid)
    requires Inv(s) && Effect(s, s', c, w) && Closed(s') && t in s.pcs
    requires t == s.cpu.current || At(s, t, c) ==> ThreadOk(s', t)
    ensures ThreadOk(s', t)
  {
    hide ChanOk, Sound, Once, Runs;
    assert ThreadOk(s, t);
  }

  /** Putting the pieces of the invariant back together after a step at `c`. */
  lemma EffectInv(s: State, s': State, c: Cid, w: Tid)
    requires Inv(s) && Effect(s, s', c, w) && Sound(s'.cpu) && Once(s'.cpu) && Closed(s')
    requires ThreadOk(s', s.cpu.current) && ChanOk(s', c)
    requires forall t :: At(s, t, c) && t != s.cpu.current ==> ThreadOk(s', t)
    ensures Inv(s')
  {
    hide ChanOk, Sound, Once, ThreadOk, Closed;
    EffectShape(s, s', c, w);
    forall t | t in s'.pcs ensures ThreadOk(s', t) { EffectThread(s, s', c, w, t); }
    forall d | d in s'.chans ensures ChanOk(s', d) {
      if d != c { EffectOthers(s, s', c, w, d); }
    }
  }

  lemma EffectShape(s: State, s': State, c: Cid, w: Tid)
    requires Effect(s, s', c, w) && s.pcs[s.cpu.idle] == User
    ensures s'.pcs.Keys == s.pcs.Keys && s'.chans.Keys == s.chans.Keys && s'.cpu.idle in s'.pcs
    ensures s'.pcs[s'.cpu.idle] == User
  {
  }

  // ---- Each step keeps the invariant.

  /** The current thread may deliver at `c`: it has just taken the sender right, or holds it. */
  ghost predicate MayDeliver(s: State, c: Cid) {
    var me := s.cpu.current;
    && Inv(s) && c in s.chans && me != s.cpu.idle && s.chans[c].receiver.Some?
    && (|| (s.pcs[me] == User && s.chans[c].sender.None?)
        || (s.pcs[me].SendQueued? && s.pcs[me].ch == c && s.chans[c].sender.None?)
        || (s.pcs[me].SendWait? && s.pcs[me].ch == c))
  }

  ghost function Delivering(s: State, c: Cid, msg: Msg): State
    requires MayDeliver(s, c)
  {
    Deliver(s.(chans := s.chans[c := s.chans[c].(sender := Some(s.cpu.current))]), c, msg)
  }

  lemma CurrentRuns(s: State)
    requires Inv(s) && s.cpu.current != s.cpu.idle
    ensures Runs(s, s.cpu.current)
  {
    hide ChanOk, ThreadOk, Closed;
  }

  /** The receiver is blocked and its channel has nothing outstanding. */
  lemma DeliverBefore(s: State, c: Cid)
    requires MayDeliver(s, c)
    ensures var r := s.chans[c].receiver.value;
      && r != s.cpu.current && r != s.cpu.idle && !Runs(s, r) && r in s.cpu.tasks && r in s.bufs
      && At(s, r, c) && s.pcs[r].RecvWait? && s.chans[c].accepted == s.chans[c].returned
      && (forall t :: t in s.pcs && s.pcs[t].SendWait? && s.pcs[t].ch == c ==> t == s.cpu.current)
      && (forall t :: t in s.chans[c].wq ==> t != s.cpu.current)
  {
    hide Sound, Once;
    CurrentRuns(s);
    assert ChanOk(s, c) && ThreadOk(s, s.cpu.current);
    forall t | t in s.pcs && s.pcs[t].SendWait? && s.pcs[t].ch == c ensures t == s.cpu.current {
      assert ThreadOk(s, t);
    }
  }

  lemma DeliverEffect(s: State, c: Cid, msg: Msg)
    requires MayDeliver(s, c)
    ensures var r, s' := s.chans[c].receiver.value, Delivering(s, c, msg);
      && Effect(s, s', c, r) && Closed(s') && Sound(s'.cpu) && Once(s'.cpu) && Runs(s', r) && Runs(s', s.cpu.current)
  {
    hide ChanOk, ThreadOk, Sound, Once, Resume;
    DeliverBefore(s, c);
    CurrentRuns(s);
    var r, s' := s.chans[c].receiver.value, Delivering(s, c, msg);
    ResumeRuns(s, r);
    assert forall u :: Runs(s', u) <==> Runs(s.(cpu := Resume(s.cpu, r)), u);
    EffectClosed(s, s', c, r);
  }

  lemma DeliverChan(s: State, c: Cid, msg: Msg)
    requires MayDeliver(s, c)
    ensures ChanOk(Delivering(s, c, msg), c)
  {
    hide ThreadOk, Sound, Once, Resume;
    DeliverBefore(s, c);
    DeliverEffect(s, c, msg);
    assert QueueOk(s, c);
  }

  lemma DeliverThreads(s: State, c: Cid, msg: Msg)
    requires MayDeliver(s, c) && Closed(Delivering(s, c, msg))
    ensures ThreadOk(Delivering(s, c, msg), s.cpu.current)
    ensures forall t :: At(s, t, c) && t != s.cpu.current ==> ThreadOk(Delivering(s, c, msg), t)
  {
    hide ChanOk, Sound, Once, Resume;
    DeliverBefore(s, c);
    DeliverEffect(s, c, msg);
    var s' := Delivering(s, c, msg);
    forall t | At(s, t, c) && t != s.cpu.current ensures ThreadOk(s', t) {
      assert ThreadOk(s, t);
    }
  }

  lemma DeliverKeeps(s: State, c: Cid, msg: Msg)
    requires MayDeliver(s, c)
    ensures Inv(Delivering(s, c, msg))
  {
    hide ChanOk, ThreadOk, Sound, Once, Resume, Effect, Closed, Delivering;
    DeliverEffect(s, c, msg);
    DeliverChan(s, c, msg);
    DeliverThreads(s, c, msg);
    EffectInv(s, Delivering(s, c, msg), c, s.chans[c].receiver.value);
  }

  // A thread that queues up behind another sender.

  ghost predicate MayQueue(s: State, c: Cid) {
    var me := s.cpu.current;
    && Inv(s) && c in s.chans && me != s.cpu.idle && s.chans[c].sender.Some?
    && (s.pcs[me] == User || (s.pcs[me].SendQueued? && s.pcs[me].ch == c))
  }

  ghost function Queueing(s: State, c: Cid, msg: Msg): State
    requires MayQueue(s, c)
  {
    Blocks(s.(chans := s.chans[c := s.chans[c].(wq := s.chans[c].wq + [s.cpu.current])]), SendQueued(c, msg))
  }

  lemma QueueEffect(s: State, c: Cid, msg: Msg)
    requires MayQueue(s, c)
    ensures var s' := Queueing(s, c, msg);
      Effect(s, s', c, s.cpu.current) && Closed(s') && Sound(s'.cpu) && Once(s'.cpu) && !Runs(s', s.cpu.current)
  {
    hide ChanOk, ThreadOk, Sound, Once, BlockCurrent;
    var s' := Queueing(s, c, msg);
    BlockRuns(s);
    SoundCurrent(s'.cpu);
    assert forall u :: Runs(s', u) <==> Runs(s.(cpu := BlockCurrent(s.cpu)), u);
    EffectClosed(s, s', c, s.cpu.current);
  }

  lemma SoundCurrent(c: Cpu)
    requires Sound(c)
    ensures c.current in c.tasks
  {
  }

  lemma QueueFacts(s: State, c: Cid, msg: Msg)
    requires MayQueue(s, c)
    ensures var me, s' := s.cpu.current, Queueing(s, c, msg);
      && Runs(s, me) && !Runs(s', me) && (forall t :: t != me ==> (Runs(s', t) <==> Runs(s, t)))
      && s'.pcs == s.pcs[me := SendQueued(c, msg)] && s'.bufs == s.bufs
      && s'.chans == s.chans[c := s.chans[c].(wq := s.chans[c].wq + [me])]
  {
    hide ChanOk, ThreadOk, Sound, Once, BlockCurrent;
    CurrentRuns(s);
    QueueEffect(s, c, msg);
  }

  lemma QueueChan(s: State, c: Cid, msg: Msg)
    requires MayQueue(s, c)
    ensures ChanOk(Queueing(s, c, msg), c)
  {
    hide ThreadOk, Sound, Once, Queueing, Closed;
    QueueFacts(s, c, msg);
    assert ChanOk(s, c);
    var me, s' := s.cpu.current, Queueing(s, c, msg);
    assert me !in s.chans[c].wq;
    assert SenderWaits(s, c) <==> SenderWaits(s', c);
  }

  lemma QueueThreads(s: State, c: Cid, msg: Msg)
    requires MayQueue(s, c) && Closed(Queueing(s, c, msg))
    ensures ThreadOk(Queueing(s, c, msg), s.cpu.current)
    ensures forall t :: At(s, t, c) && t != s.cpu.current ==> ThreadOk(Queueing(s, c, msg), t)
  {
    hide ChanOk, Sound, Once, BlockCurrent;
    QueueEffect(s, c, msg);
    var s' := Queueing(s, c, msg);
    forall t | At(s, t, c) && t != s.cpu.current ensures ThreadOk(s', t) {
      assert ThreadOk(s, t);
    }
  }

  lemma QueueKeeps(s: State, c: Cid, msg: Msg)
    requires MayQueue(s, c)
    ensures Inv(Queueing(s, c, msg))
  {
    hide ChanOk, ThreadOk, Sound, Once, Effect, Closed, Queueing;
    QueueEffect(s, c, msg);
    QueueChan(s, c, msg);
    QueueThreads(s, c, msg);
    EffectInv(s, Queueing(s, c, msg), c, s.cpu.current);
  }

  // A thread that takes the sender right and waits for a receiver.

  ghost predicate MayWait(s: State, c: Cid) {
    var me := s.cpu.current;
    && Inv(s) && c in s.chans && me != s.cpu.idle && s.chans[c].sender.None? && s.chans[c].receiver.None?
    && (s.pcs[me] == User || (s.pcs[me].SendQueued? && s.pcs[me].ch == c))
  }

  ghost function Waiting(s: State, c: Cid, msg: Msg): State
    requires MayWait(s, c)
  {
    Blocks(s.(chans := s.chans[c := s.chans[c].(sender := Some(s.cpu.current))]), SendWait(c, msg))
  }

  lemma WaitEffect(s: State, c: Cid, msg: Msg)
    requires MayWait(s, c)
    ensures var s' := Waiting(s, c, msg);
      Effect(s, s', c, s.cpu.current) && Closed(s') && Sound(s'.cpu) && Once(s'.cpu) && !Runs(s', s.cpu.current)
  {
    hide ChanOk, ThreadOk, Sound, Once, BlockCurrent;
    var s' := Waiting(s, c, msg);
    BlockRuns(s);
    SoundCurrent(s'.cpu);
    assert forall u :: Runs(s', u) <==> Runs(s.(cpu := BlockCurrent(s.cpu)), u);
    EffectClosed(s, s', c, s.cpu.current);
  }

  lemma WaitChan(s: State, c: Cid, msg: Msg)
    requires MayWait(s, c)
    ensures ChanOk(Waiting(s, c, msg), c)
  {
    hide ThreadOk, Sound, Once, BlockCurrent;
    CurrentRuns(s);
    WaitEffect(s, c, msg);
    assert ChanOk(s, c);
    assert s.cpu.current !in s.chans[c].wq;
  }

  lemma WaitThreads(s: State, c: Cid, msg: Msg)
    requires MayWait(s, c) && Closed(Waiting(s, c, msg))
    ensures ThreadOk(Waiting(s, c, msg), s.cpu.current)
    ensures forall t :: At(s, t, c) && t != s.cpu.current ==> ThreadOk(Waiting(s, c, msg), t)
  {
    hide ChanOk, Sound, Once, BlockCurrent;
    WaitEffect(s, c, msg);
    var s' := Waiting(s, c, msg);
    forall t | At(s, t, c) && t != s.cpu.current ensures ThreadOk(s', t) {
      assert ThreadOk(s, t);
    }
  }

  lemma WaitKeeps(s: State, c: Cid, msg: Msg)
    requires MayWait(s, c)
    ensures Inv(Waiting(s, c, msg))
  {
    hide ChanOk, ThreadOk, Sound, Once, Effect, Closed, Waiting;
    WaitEffect(s, c, msg);
    WaitChan(s, c, msg);
    WaitThreads(s, c, msg);
    EffectInv(s, Waiting(s, c, msg), c, s.cpu.current);
  }

  // A thread that takes the receiver right.

  ghost predicate MayRecv(s: State, c: Cid) {
    Inv(s) && c in s.chans && s.cpu.current != s.cpu.idle && s.pcs[s.cpu.current] == User && s.chans[c].receiver.None?
  }

  /** Whom a receive wakes; itself stands for nobody. */
  ghost function Wakes(s: State, c: Cid): Tid
    requires c in s.chans
  {
    var ch := s.chans[c];
    if ch.sender.Some? then ch.sender.value else if ch.wq != [] then ch.wq[0] else s.cpu.current
  }

  lemma WakesBlocked(s: State, c: Cid)
    requires MayRecv(s, c)
    ensures var w := Wakes(s, c);
      w != s.cpu.current ==> At(s, w, c) && w in s.cpu.tasks && w != s.cpu.idle && !Runs(s, w)
    ensures s.chans[c].sender.Some? ==> SenderWaits(s, c) && Wakes(s, c) != s.cpu.current
    ensures s.chans[c].sender.None? && s.chans[c].wq != [] ==>
      Wakes(s, c) != s.cpu.current && s.pcs[Wakes(s, c)].SendQueued?
    ensures s.chans[c].accepted == s.chans[c].returned
  {
    hide Sound, Once, ThreadOk;
    assert ChanOk(s, c);
    var w := Wakes(s, c);
    if s.chans[c].sender.None? && s.chans[c].wq != [] { assert w in s.chans[c].wq; }
  }

  lemma RecvCpu(s: State, w: Tid)
    requires Sound(s.cpu) && Once(s.cpu) && s.cpu.current != s.cpu.idle
    requires w == s.cpu.current || (w in s.cpu.tasks && w != s.cpu.idle && !Runs(s, w))
    ensures var mid := if w == s.cpu.current then s.cpu else Resume(s.cpu, w);
      mid.current == s.cpu.current && mid.current in mid.tasks &&
      var s' := s.(cpu := BlockCurrent(mid));
      && Sound(s'.cpu) && Once(s'.cpu) && !Runs(s', s.cpu.current) && (w != s.cpu.current ==> Runs(s', w))
      && (forall u :: u != s.cpu.current && u != w ==> (Runs(s', u) <==> Runs(s, u)))
      && s'.cpu.tasks.Keys == s.cpu.tasks.Keys && s'.cpu.idle == s.cpu.idle && s'.cpu.current in s'.cpu.tasks
  {
    hide Sound, Once, BlockCurrent;
    SoundCurrent(s.cpu);
    if w == s.cpu.current {
      BlockRuns(s);
      SoundCurrent(BlockCurrent(s.cpu));
    } else {
      ResumeRuns(s, w);
      var t := s.(cpu := Resume(s.cpu, w));
      BlockRuns(t);
      SoundCurrent(BlockCurrent(t.cpu));
    }
  }

  lemma RecvEffect(s: State, c: Cid)
    requires MayRecv(s, c)
    ensures var w, s' := Wakes(s, c), Recv(s, c);
      && Effect(s, s', c, w) && Closed(s') && Sound(s'.cpu) && Once(s'.cpu)
      && !Runs(s', s.cpu.current) && (w != s.cpu.current ==> Runs(s', w))
  {
    hide ChanOk, ThreadOk, Sound, Once, BlockCurrent, Resume;
    var w, s' := Wakes(s, c), Recv(s, c);
    WakesBlocked(s, c);
    RecvCpu(s, w);
    var mid := if w == s.cpu.current then s.cpu else Resume(s.cpu, w);
    assert s'.cpu == BlockCurrent(mid);
    assert forall u :: Runs(s', u) <==> Runs(s.(cpu := BlockCurrent(mid)), u);
    EffectClosed(s, s', c, w);
  }

  /** The queue a receive leaves behind. */
  ghost function Rest(s: State, c: Cid): seq<Tid>
    requires c in s.chans
  {
    var ch := s.chans[c];
    if ch.sender.None? && ch.wq != [] then ch.wq[1..] else ch.wq
  }

  lemma RecvShape(s: State, c: Cid)
    requires Closed(s) && c in s.chans
    ensures var me, s' := s.cpu.current, Recv(s, c);
      && s'.pcs == s.pcs[me := RecvWait(c)] && s'.bufs == s.bufs
      && s'.chans == s.chans[c := s.chans[c].(receiver := Some(me), wq := Rest(s, c))]
  {
    hide BlockCurrent;
  }

  /** The rest of the queue holds the queue without the thread that was woken. */
  lemma RestOf(s: State, c: Cid)
    requires c in s.chans && NoDuplicates(s.chans[c].wq)
    ensures NoDuplicates(Rest(s, c))
    ensures forall t :: t in Rest(s, c) ==> t in s.chans[c].wq
    ensures s.chans[c].sender.None? ==> Wakes(s, c) !in Rest(s, c) || s.chans[c].wq == []
    ensures forall t :: t in s.chans[c].wq && t != Wakes(s, c) ==> t in Rest(s, c)
  {
    var ch := s.chans[c];
    if ch.sender.None? && ch.wq != [] { assert ch.wq == [ch.wq[0]] + ch.wq[1..]; }
  }

  /** What a receive leaves unchanged, and the threads it blocks and wakes. */
  lemma RecvFacts(s: State, c: Cid)
    requires MayRecv(s, c)
    ensures var me, w, s' := s.cpu.current, Wakes(s, c), Recv(s, c);
      && Closed(s') && !Runs(s', me) && Runs(s, me) && (w != me ==> Runs(s', w))
      && (forall t :: t != me && t != w ==> (Runs(s', t) <==> Runs(s, t)))
      && me !in s.chans[c].wq && NoDuplicates(s.chans[c].wq) && me != s.cpu.idle && s'.cpu.idle == s.cpu.idle
  {
    hide ThreadOk, Sound, Once, Recv;
    RecvEffect(s, c);
    CurrentRuns(s);
    assert ChanOk(s, c);
  }

  lemma RecvChan(s: State, c: Cid)
    requires MayRecv(s, c)
    ensures ChanOk(Recv(s, c), c)
  {
    hide ThreadOk, Sound, Once, Recv;
    WakesBlocked(s, c);
    RecvShape(s, c);
    RecvFacts(s, c);
    RecvQueue(s, c);
    assert ChanOk(s, c);
    var w, s' := Wakes(s, c), Recv(s, c);
    assert SenderWaits(s, c) <==> SenderWaits(s', c);
    if s.chans[c].sender.None? && s.chans[c].wq != [] { assert Woken(s', w, c); }
    assert NoLostWakeup(s', c);
  }

  lemma RecvQueue(s: State, c: Cid)
    requires MayRecv(s, c)
    ensures QueueOk(Recv(s, c), c)
  {
    hide ThreadOk, Sound, Once, Recv, Rest;
    WakesBlocked(s, c);
    RecvShape(s, c);
    RecvFacts(s, c);
    RestOf(s, c);
    assert ChanOk(s, c);
    var s' := Recv(s, c);
    forall t | t in Rest(s, c) ensures At(s', t, c) && s'.pcs[t].SendQueued? && !Runs(s', t) {
      assert t in s.chans[c].wq && t != s.cpu.current;
      assert t != Wakes(s, c);
    }
  }

  lemma RecvThreads(s: State, c: Cid)
    requires MayRecv(s, c) && Closed(Recv(s, c))
    ensures ThreadOk(Recv(s, c), s.cpu.current)
    ensures forall t :: At(s, t, c) && t != s.cpu.current ==> ThreadOk(Recv(s, c), t)
  {
    hide ChanOk, Sound, Once, Recv, Rest, Wakes;
    RecvShape(s, c);
    RecvFacts(s, c);
    RestOf(s, c);
    forall t | At(s, t, c) && t != s.cpu.current ensures ThreadOk(Recv(s, c), t) {
      assert ThreadOk(s, t);
    }
  }

  lemma RecvKeeps(s: State, c: Cid)
    requires MayRecv(s, c)
    ensures Inv(Recv(s, c))
  {
    hide ChanOk, ThreadOk, Sound, Once, Effect, Recv;
    RecvEffect(s, c);
    RecvChan(s, c);
    RecvThreads(s, c);
    EffectInv(s, Recv(s, c), c, Wakes(s, c));
  }

  // A receiver that has been resumed.

  ghost predicate MayReturn(s: State, c: Cid) {
    Inv(s) && s.cpu.current != s.cpu.idle && s.pcs[s.cpu.current] == RecvWait(c)
  }

  /** A resumed receiver always finds a delivered message; it never has to wait again. */
  lemma ReturnReady(s: State, c: Cid)
    requires MayReturn(s, c)
    ensures c in s.chans && s.chans[c].receiver == Some(s.cpu.current) && Delivered(s, c)
    ensures s.chans[c].accepted == s.chans[c].returned + [s.bufs[s.cpu.current]]
  {
    hide Sound, Once;
    CurrentRuns(s);
    assert ThreadOk(s, s.cpu.current) && ChanOk(s, c);
  }

  lemma ReturnKeeps(s: State, c: Cid)
    requires MayReturn(s, c)
    ensures Inv(RecvResumed(s, c))
  {
    hide ChanOk, ThreadOk, Sound, Once;
    ReturnReady(s, c);
    var s' := RecvResumed(s, c);
    assert s'.cpu == s.cpu;
    assert forall u :: Runs(s', u) <==> Runs(s, u);
    assert Effect(s, s', c, s.cpu.current);
    EffectClosed(s, s', c, s.cpu.current);
    ReturnChan(s, c);
    ReturnThreads(s, c);
    EffectInv(s, s', c, s.cpu.current);
  }

  lemma ReturnChan(s: State, c: Cid)
    requires MayReturn(s, c)
    ensures ChanOk(RecvResumed(s, c), c)
  {
    hide ThreadOk, Sound, Once;
    ReturnReady(s, c);
    CurrentRuns(s);
    assert ChanOk(s, c);
    assert s.cpu.current !in s.chans[c].wq;
  }

  lemma ReturnThreads(s: State, c: Cid)
    requires MayReturn(s, c) && c in s.chans && Closed(RecvResumed(s, c))
    ensures ThreadOk(RecvResumed(s, c), s.cpu.current)
    ensures forall t :: At(s, t, c) && t != s.cpu.current ==> ThreadOk(RecvResumed(s, c), t)
  {
    hide ChanOk, Sound, Once;
    ReturnReady(s, c);
    CurrentRuns(s);
    var s' := RecvResumed(s, c);
    forall t | At(s, t, c) && t != s.cpu.current ensures ThreadOk(s', t) {
      assert ThreadOk(s, t);
    }
  }

  /** A sender with the right that runs again has a receiver. */
  lemma WaitedSenderReady(s: State, c: Cid, msg: Msg)
    requires Inv(s) && s.cpu.current != s.cpu.idle && s.pcs[s.cpu.current] == SendWait(c, msg)
    ensures MayDeliver(s, c) && Delivering(s, c, msg) == Deliver(s, c, msg)
  {
    hide Sound, Once;
    CurrentRuns(s);
    assert ThreadOk(s, s.cpu.current) && ChanOk(s, c);
    assert s.chans[c := s.chans[c].(sender := Some(s.cpu.current))] == s.chans;
  }

  lemma SendSlowKeeps(s: State, c: Cid, msg: Msg)
    requires Inv(s) && c in s.chans && s.cpu.current != s.cpu.idle
    requires s.pcs[s.cpu.current] == User || (s.pcs[s.cpu.current].SendQueued? && s.pcs[s.cpu.current].ch == c)
    ensures Inv(SendSlow(s, c, msg))
  {
    hide ChanOk, ThreadOk, Sound, Once, Deliver, Blocks;
    if s.chans[c].sender.Some? {
      QueueKeeps(s, c, msg);
    } else if s.chans[c].receiver.None? {
      WaitKeeps(s, c, msg);
    } else {
      DeliverKeeps(s, c, msg);
    }
  }

  lemma TickKeeps(s: State)
    requires Inv(s)
    ensures Inv(s.(cpu := Switch(s.cpu)))
  {
    hide ChanOk, ThreadOk, Once, Closed;
    var s' := s.(cpu := Switch(s.cpu));
    SwitchSound(s.cpu);
    SameTasks(s, s');
    TicksAside(s, s');
  }

  lemma SameTasks(s: State, s': State)
    requires Sound(s.cpu) && s' == s.(cpu := Switch(s.cpu))
    ensures s'.cpu.tasks == s.cpu.tasks && s'.cpu.idle == s.cpu.idle
  {
  }

  lemma TicksAside(s: State, s': State)
    requires Inv(s) && Sound(s'.cpu) && s' == s.(cpu := s'.cpu) && s'.cpu.tasks == s.cpu.tasks
      && s'.cpu.idle == s.cpu.idle
    ensures Inv(s')
  {
    hide ChanOk, ThreadOk, Sound;
    SoundCurrent(s'.cpu);
    forall t | t in s'.pcs ensures ThreadOk(s', t) { TickThread(s, s', t); }
    forall c | c in s'.chans ensures ChanOk(s', c) {
      assert Aside(s, s', c);
      AsideOk(s, s', c);
    }
  }

  lemma TickThread(s: State, s': State, t: Tid)
    requires Inv(s) && Closed(s') && s' == s.(cpu := s'.cpu) && s'.cpu.tasks == s.cpu.tasks && s'.cpu.idle == s.cpu.idle
    requires t in s'.pcs
    ensures ThreadOk(s', t)
  {
    hide ChanOk, Sound;
    assert ThreadOk(s, t);
  }

  lemma ContinueKeeps(s: State)
    requires Inv(s) && s.cpu.current != s.cpu.idle
    ensures Inv(Continue(s))
  {
    hide ChanOk, ThreadOk, Sound, Once, Deliver, Delivering, SendSlow, RecvResumed;
    var me := s.cpu.current;
    match s.pcs[me]
    case User =>
    case SendQueued(c, msg) => SendSlowKeeps(s, c, msg);
    case SendWait(c, msg) =>
      WaitedSenderReady(s, c, msg);
      DeliverKeeps(s, c, msg);
    case RecvWait(c) => ReturnKeeps(s, c);
  }

  lemma SendKeeps(s: State, c: Cid, msg: Msg)
    requires Inv(s) && c in s.chans && s.cpu.current != s.cpu.idle && s.pcs[s.cpu.current] == User
    ensures Inv(Send(s, c, msg))
  {
    hide ChanOk, ThreadOk, Sound, Once, Deliver, SendSlow;
    if s.chans[c].sender.None? && s.chans[c].receiver.Some? {
      DeliverKeeps(s, c, msg);
    } else {
      SendSlowKeeps(s, c, msg);
    }
  }

  lemma StepKeeps(s: State, a: Action)
    requires Inv(s)
    ensures Inv(Step(s, a))
  {
    hide ChanOk, ThreadOk, Sound, Once, Send, Recv, Continue, Route;
    var me := s.cpu.current;
    if me == s.cpu.idle {
      TickKeeps(s);
    } else if s.pcs[me] != User {
      if a.DoContinue? { ContinueKeeps(s); }
    } else {
      match a
      case DoSend(src, header, payloads) =>
        var r := Route(s.chans, src);
        if r.Some? { SendKeeps(s, r.value.0, Msg(header, r.value.1, payloads)); }
      case DoRecv(c) =>
        if c in s.chans && s.chans[c].isOpen && s.chans[c].receiver.None? { RecvKeeps(s, c); }
      case DoContinue =>
      case DoTick => TickKeeps(s);
    }
  }

  // ---- Whole runs.

  ghost predicate Run(states: seq<State>, actions: seq<Action>) {
    && |states| == |actions| + 1
    && (forall i :: 0 <= i < |actions| ==> Closed(states[i]) && states[i + 1] == Step(states[i], actions[i]))
  }

  ghost predicate Unused(ch: Chan) {
    ch.sender.None? && ch.receiver.None? && ch.wq == [] && ch.accepted == [] && ch.returned == []
  }

  /** A freshly started machine: no rights taken, nobody queued, nothing sent. */
  ghost predicate Fresh(s: State) {
    && Closed(s) && Sound(s.cpu) && Once(s.cpu)
    && (forall t :: t in s.pcs ==> s.pcs[t] == User && (t == s.cpu.idle || Runs(s, t)))
    && (forall c :: c in s.chans ==> Unused(s.chans[c]))
  }

  lemma FreshInv(s: State)
    requires Fresh(s)
    ensures Inv(s)
  {
  }

  lemma {:induction false} RunsKeep(states: seq<State>, actions: seq<Action>, n: nat)
    requires Run(states, actions) && Fresh(states[0]) && n <= |actions|
    ensures Inv(states[n])
  {
    hide Inv, Step, Fresh;
    if n == 0 {
      FreshInv(states[0]);
    } else {
      RunsKeep(states, actions, n - 1);
      StepKeeps(states[n - 1], actions[n - 1]);
    }
  }

  /** In every run, on every channel: what `recv` returned is what was accepted, in order, up to
      one message that is in the blocked-no-more receiver's buffer. */
  lemma InOrderOnce(states: seq<State>, actions: seq<Action>, n: nat, c: Cid)
    requires Run(states, actions) && Fresh(states[0]) && n <= |actions| && c in states[n].chans
    ensures var ch := states[n].chans[c];
      || ch.accepted == ch.returned
      || (ch.receiver.Some? && ch.receiver.value in states[n].bufs && Runs(states[n], ch.receiver.value)
          && ch.accepted == ch.returned + [states[n].bufs[ch.receiver.value]])
  {
    hide Inv, Fresh;
    RunsKeep(states, actions, n);
    InvLog(states[n], c);
  }

  lemma InvLog(s: State, c: Cid)
    requires Inv(s) && c in s.chans
    ensures var ch := s.chans[c];
      || ch.accepted == ch.returned
      || (ch.receiver.Some? && ch.receiver.value in s.bufs && Runs(s, ch.receiver.value)
          && ch.accepted == ch.returned + [s.bufs[ch.receiver.value]])
  {
    assert ChanOk(s, c);
  }

  /** In every run, a receiver that waits while some sender holds the right or is queued has a
      sender to its channel that is runnable. */
  lemma ReceiversGetServed(states: seq<State>, actions: seq<Action>, n: nat, c: Cid)
    requires Run(states, actions) && Fresh(states[0]) && n <= |actions| && c in states[n].chans
    requires var ch := states[n].chans[c];
      ch.receiver.Some? && !Runs(states[n], ch.receiver.value) && (ch.sender.Some? || ch.wq != [])
    ensures exists t :: At(states[n], t, c) && !states[n].pcs[t].RecvWait? && Runs(states[n], t)
  {
    hide Inv, Fresh;
    RunsKeep(states, actions, n);
    InvServed(states[n], c);
  }

  lemma InvServed(s: State, c: Cid)
    requires Inv(s) && c in s.chans
    requires s.chans[c].receiver.Some? && !Runs(s, s.chans[c].receiver.value)
      && (s.chans[c].sender.Some? || s.chans[c].wq != [])
    ensures exists t :: At(s, t, c) && !s.pcs[t].RecvWait? && Runs(s, t)
  {
    hide ThreadOk, Sound, Once;
    assert ChanOk(s, c);
    if s.chans[c].sender.Some? {
      var x := s.chans[c].sender.value;
      assert At(s, x, c) && !s.pcs[x].RecvWait? && Runs(s, x);
    } else {
      var t :| Woken(s, t, c);
      assert At(s, t, c) && !s.pcs[t].RecvWait? && Runs(s, t);
    }
  }
}
