/** The run queue and counted resume/block of a single-CPU kernel. */
module Scheduler {

  type Tid = nat

  /** `count` is how often the thread was resumed more than it blocked. */
  datatype Task = Task(runnable: bool, count: int)

  datatype Cpu = Cpu(tasks: map<Tid, Task>, rq: seq<Tid>, current: Tid, idle: Tid)

  ghost predicate NoDuplicates(q: seq<Tid>) {
    forall i, j :: 0 <= i < j < |q| ==> q[i] != q[j]
  }

  /** The run queue holds each runnable thread but the current one exactly once and nothing
      else; a thread is runnable exactly when its count is positive; the idle thread is never
      runnable and runs only when nothing else does. */
  ghost predicate Sound(c: Cpu) {
    && c.current in c.tasks && c.idle in c.tasks && NoDuplicates(c.rq)
    && (forall t :: t in c.tasks ==> c.tasks[t].count >= 0 && (c.tasks[t].runnable <==> c.tasks[t].count > 0))
    && (forall t :: t in c.rq <==> t in c.tasks && c.tasks[t].runnable && t != c.current)
    && !c.tasks[c.idle].runnable
    && (c.current != c.idle ==> c.tasks[c.current].runnable)
  }

  /** One more resume; the first one makes the thread runnable and queues it. */
  function Resume(c: Cpu, t: Tid): Cpu
    requires t in c.tasks
  {
    var task := c.tasks[t];
    if task.count == 0
    then c.(tasks := c.tasks[t := Task(true, 1)], rq := c.rq + [t])
    else c.(tasks := c.tasks[t := task.(count := task.count + 1)])
  }

  /** Gives the CPU to the head of the run queue, else keeps a runnable thread, else idles. */
  function Switch(c: Cpu): Cpu
    requires c.current in c.tasks
  {
    if c.rq != [] then
      var rest := c.rq[1..];
      c.(rq := if c.tasks[c.current].runnable then rest + [c.current] else rest, current := c.rq[0])
    else if c.tasks[c.current].runnable then c
    else c.(current := c.idle)
  }

  /** Uses up one resume; when none is left the thread blocks and the CPU is given away. */
  function BlockCurrent(c: Cpu): Cpu
    requires c.current in c.tasks
  {
    var task := c.tasks[c.current];
    if task.count - 1 <= 0
    then Switch(c.(tasks := c.tasks[c.current := Task(false, task.count - 1)]))
    else c.(tasks := c.tasks[c.current := task.(count := task.count - 1)])
  }

  lemma ResumeSound(c: Cpu, t: Tid)
    requires Sound(c) && t in c.tasks && t != c.idle
    ensures Sound(Resume(c, t))
  {
    var d := Resume(c, t);
    if c.tasks[t].count == 0 {
      assert t !in c.rq;
      forall u ensures u in d.rq <==> u in d.tasks && d.tasks[u].runnable && u != d.current {
        assert u in d.rq <==> u in c.rq || u == t;
      }
    }
  }

  /** Sound but for the current thread, which may have just blocked. */
  ghost predicate Switchable(c: Cpu) {
    && c.current in c.tasks && c.idle in c.tasks && NoDuplicates(c.rq)
    && (forall t :: t in c.tasks ==> c.tasks[t].count >= 0 && (c.tasks[t].runnable <==> c.tasks[t].count > 0))
    && (forall t :: t in c.rq <==> t in c.tasks && c.tasks[t].runnable && t != c.current)
    && !c.tasks[c.idle].runnable
  }

  lemma SwitchSound(c: Cpu)
    requires Switchable(c)
    ensures Sound(Switch(c))
  {
    var d := Switch(c);
    if c.rq != [] {
      assert c.rq == [c.rq[0]] + c.rq[1..];
      assert c.rq[0] in c.rq && c.current !in c.rq;
      forall u ensures u in d.rq <==> u in d.tasks && d.tasks[u].runnable && u != d.current {
        assert u in c.rq <==> u == c.rq[0] || u in c.rq[1..];
        assert c.rq[0] !in c.rq[1..];
        assert u in d.rq <==> u in c.rq[1..] || (c.tasks[c.current].runnable && u == c.current);
      }
    }
  }

  lemma BlockSound(c: Cpu)
    requires Sound(c) && c.current != c.idle
    ensures Sound(BlockCurrent(c))
  {
    var task := c.tasks[c.current];
    if task.count - 1 <= 0 {
      SwitchSound(c.(tasks := c.tasks[c.current := Task(false, task.count - 1)]));
    }
  }

  // ---- Runs.

  datatype Op = DoResume(t: Tid) | DoBlock | DoSwitch

  /** One step; the idle thread is neither resumed nor does it block. */
  function Step(c: Cpu, op: Op): Cpu
    requires c.current in c.tasks
  {
    match op
    case DoResume(t) => if t in c.tasks && t != c.idle then Resume(c, t) else c
    case DoBlock => if c.current != c.idle then BlockCurrent(c) else c
    case DoSwitch => Switch(c)
  }

  lemma StepSound(c: Cpu, op: Op)
    requires Sound(c)
    ensures Sound(Step(c, op))
  {
    match op
    case DoResume(t) => if t in c.tasks && t != c.idle { ResumeSound(c, t); }
    case DoBlock => if c.current != c.idle { BlockSound(c); }
    case DoSwitch => SwitchSound(c);
  }

  ghost predicate Run(states: seq<Cpu>, ops: seq<Op>) {
    && |states| == |ops| + 1 && states[0].current in states[0].tasks
    && (forall i :: 0 <= i < |ops| ==> states[i].current in states[i].tasks && states[i + 1] == Step(states[i], ops[i]))
  }

  /** Every state of every run is sound. */
  lemma {:induction false} RunsSound(states: seq<Cpu>, ops: seq<Op>, n: nat)
    requires Run(states, ops) && Sound(states[0]) && n <= |ops|
    ensures Sound(states[n])
  {
    if n > 0 {
      RunsSound(states, ops, n - 1);
      StepSound(states[n - 1], ops[n - 1]);
    }
  }

  ghost function Switches(c: Cpu, n: nat): (d: Cpu)
    requires Sound(c)
    ensures Sound(d) && d.tasks == c.tasks
    decreases n
  {
    if n == 0 then c else SwitchSound(Switches(c, n - 1)); Switch(Switches(c, n - 1))
  }

  /** Taking turns: the thread at place `i` of the queue runs after `i + 1` switches. */
  lemma {:induction false} EveryoneRuns(c: Cpu, i: nat)
    requires Sound(c) && i < |c.rq|
    ensures Switches(c, i + 1).current == c.rq[i]
    ensures |Switches(c, i + 1).rq| >= |c.rq| - i - 1 && c.rq[i + 1..] <= Switches(c, i + 1).rq
  {
    if i == 0 {
      assert Switches(c, 1) == Switch(Switches(c, 0));
    } else {
      EveryoneRuns(c, i - 1);
      var d := Switches(c, i);
      assert d.rq[0] == c.rq[i..][0] == c.rq[i];
      assert c.rq[i..][1..] == c.rq[i + 1..];
      assert c.rq[i + 1..] <= d.rq[1..];
    }
  }

  // ---- Counts.

  /** How often `t` was resumed in the first `n` steps. */
  ghost function Resumes(ops: seq<Op>, n: nat, t: Tid): nat
    requires n <= |ops|
  {
    if n == 0 then 0 else Resumes(ops, n - 1, t) + if ops[n - 1] == DoResume(t) then 1 else 0
  }

  /** How often `t` blocked in the first `n` steps: a block is a step of the thread that runs. */
  ghost function Waits(states: seq<Cpu>, ops: seq<Op>, n: nat, t: Tid): nat
    requires n <= |ops| < |states|
  {
    if n == 0 then 0
    else Waits(states, ops, n - 1, t) + if ops[n - 1].DoBlock? && states[n - 1].current == t then 1 else 0
  }

  /** In every run, no resume is lost and none is made up: a thread's count is how often it was
      resumed more than it blocked. */
  lemma {:induction false} CountsBalance(states: seq<Cpu>, ops: seq<Op>, n: nat, t: Tid)
    requires Run(states, ops) && Sound(states[0]) && n <= |ops| && t in states[0].tasks && t != states[0].idle
    ensures t in states[n].tasks && states[n].idle == states[0].idle
    ensures states[n].tasks[t].count == states[0].tasks[t].count + Resumes(ops, n, t) - Waits(states, ops, n, t)
  {
    if n > 0 {
      CountsBalance(states, ops, n - 1, t);
      StepCounts(states[n - 1], ops[n - 1], t);
    }
  }

  lemma StepCounts(c: Cpu, op: Op, t: Tid)
    requires c.current in c.tasks && t in c.tasks && t != c.idle
    ensures var d := Step(c, op);
      && t in d.tasks && d.idle == c.idle
      && d.tasks[t].count == c.tasks[t].count + (if op == DoResume(t) then 1 else 0)
         - if op.DoBlock? && c.current == t then 1 else 0
  {
  }

  /** A thread that blocks keeps the CPU exactly when it was resumed more than once before, and then
      nothing else changes. */
  lemma BlocksAtLast(c: Cpu)
    requires Sound(c) && c.current != c.idle
    ensures BlockCurrent(c).current == c.current <==> c.tasks[c.current].count > 1
    ensures c.tasks[c.current].count > 1 ==> BlockCurrent(c).rq == c.rq && BlockCurrent(c).tasks[c.current].runnable
    ensures c.tasks[c.current].count == 1 ==> !BlockCurrent(c).tasks[c.current].runnable
    ensures forall t :: t in c.tasks && t != c.current ==>
      t in BlockCurrent(c).tasks && BlockCurrent(c).tasks[t] == c.tasks[t]
  {
    if c.rq != [] { assert c.rq[0] in c.rq; }
  }
}
