/** A semaphore and the scheduler together: the waiters are tasks, and a signal makes one of them RUNNING. */
module WaitingTasks {
  import opened Basics
  import opened Scheduling
  import opened SchedulingProofs
  import opened SchedulingRuns
  import opened SchedulingRecovery
  import opened SchedulingExact
  import Semaphores

  /** Task `t` of the semaphore is task `t` of the scheduler; there is room for tasks that are still to be created. */
  datatype Joint = Joint(sched: State, sem: Semaphores.Sem)

  /**
   * A step of the scheduler that has nothing to do with the semaphore, or a step of sem_wait by the thread of core
   * `c`, or a sem_signal on core `c`, by its thread or by an interrupt.
   */
  datatype Act = Other(step: Step) | Begin(c: nat) | TryWait(c: nat) | SignalBy(c: nat)

  predicate Sized(j: Joint) {
    Sane(j.sched) && Semaphores.Sized(j.sem) && |j.sched.tasks| <= |j.sem.pc|
  }

  /** TASK_RUNNING is the same field for both; a zombie is in no sem_wait. */
  predicate Coupled(j: Joint) {
    && Sized(j)
    && (forall t | 0 <= t < |j.sched.tasks| :: j.sem.runnable[t] <==> j.sched.tasks[t].state == Running)
    && (forall t | 0 <= t < |j.sched.tasks| :: j.sched.tasks[t].state == Zombie ==> j.sem.pc[t] == Semaphores.Outside)
    && (forall t | |j.sched.tasks| <= t < |j.sem.pc| :: j.sem.runnable[t] && j.sem.pc[t] == Semaphores.Outside)
  }

  ghost predicate JointInv(j: Joint) { Inv(j.sched) && Semaphores.Inv(j.sem) && Coupled(j) }

  predicate Enters(s: State, c: nat)
    requires Sane(s)
  {
    c < |s.cores| && AtBase(Thread(s, c)) && Thread(s, c).state != Zombie
  }

  predicate Possible(j: Joint, act: Act)
    requires Sized(j)
  {
    match act
    case Other(step) =>
      && Enabled(j.sched, step)
      && (step.Block? || step.Die? ==> j.sem.pc[j.sched.cores[step.c].current] == Semaphores.Outside)
      && (step.Wake? ==> j.sem.pc[step.t] == Semaphores.Outside)
      && (step.Fork? ==> |j.sched.tasks| < |j.sem.pc|)
    case Begin(c) => Enters(j.sched, c) && j.sem.pc[j.sched.cores[c].thread] == Semaphores.Outside
    case TryWait(c) => Enters(j.sched, c) && j.sem.pc[j.sched.cores[c].thread].Looping?
    case SignalBy(c) => c < |j.sched.cores|
  }

  /** What a step outside the semaphore means for it: some task changes its state elsewhere. */
  function Elsewhere(j: Joint, step: Step): Semaphores.Sem
    requires Sized(j) && Enabled(j.sched, step)
  {
    if step.Block? || step.Die? then j.sem.(runnable := j.sem.runnable[j.sched.cores[step.c].current := false])
    else if step.Wake? then j.sem.(runnable := j.sem.runnable[step.t := true])
    else j.sem
  }

  /** The task a signal wakes. */
  function Woken(m: Semaphores.Sem): Option<nat>
    requires Semaphores.Sized(m)
  {
    var k := Semaphores.FirstAsleep(m.waiters, m.runnable);
    if k < |m.waiters| then Some(m.waiters[k]) else None
  }

  predicate WakesTask(j: Joint)
    requires Sized(j)
  {
    Woken(j.sem).Some? && Woken(j.sem).value < |j.sched.tasks| && j.sched.tasks[Woken(j.sem).value].state == Waiting
  }

  function Next(j: Joint, act: Act): Joint
    requires Sized(j) && Possible(j, act)
  {
    match act
    case Other(step) => Joint(Apply(j.sched, step), Elsewhere(j, step))
    case Begin(c) => Joint(j.sched, Semaphores.Apply(j.sem, Semaphores.Begin(j.sched.cores[c].thread)))
    case TryWait(c) =>
      var m := Semaphores.ApplyTry(j.sem, j.sched.cores[c].thread);
      Joint(if j.sem.count > 0 then j.sched else Apply(j.sched, Block(c)), m)
    case SignalBy(c) =>
      var s := if WakesTask(j) then Apply(j.sched, Wake(c, Woken(j.sem).value)) else j.sched;
      Joint(s, Semaphores.ApplySignal(j.sem))
  }

  // ---- every step keeps both invariants and their agreement

  /** Only these steps write the state of a task. */
  lemma StatesKept(s: State, step: Step, t: nat)
    requires Inv(s) && Enabled(s, step) && t < |s.tasks| && !step.Block? && !step.Die? && !step.Wake?
    ensures t < |Apply(s, step).tasks| && Apply(s, step).tasks[t].state == s.tasks[t].state
  {
    if step.Pick? {
      PickStates(s, step.c, t);
    } else if step.SwitchOut? || step.SwitchToIdle? || step.SetCurrent? || step.SetIdle? {
      SwitchStates(s, step, t);
    } else {
      OwnStates(s, step, t);
    }
  }

  lemma PickStates(s: State, c: nat, t: nat)
    requires Inv(s) && Enabled(s, Pick(c)) && t < |s.tasks|
    ensures t < |Apply(s, Pick(c)).tasks| && Apply(s, Pick(c)).tasks[t].state == s.tasks[t].state
  {
    assert Sane(s);
    hide Inv, Enabled, Apply;
    var (ts, next) := Select(s.tasks, |s.cores|);
    RechargeLike(s, ts);
    PickShape(s, c, ts, next, t);
  }

  lemma PickShape(s: State, c: nat, ts: seq<Task>, next: Option<nat>, t: nat)
    requires Sane(s) && Enabled(s, Pick(c)) && (ts, next) == Select(s.tasks, |s.cores|) && t < |ts|
    ensures t < |Apply(s, Pick(c)).tasks| && Apply(s, Pick(c)).tasks[t].state == ts[t].state
  {
    hide Select;
  }

  lemma SwitchStates(s: State, step: Step, t: nat)
    requires Sane(s) && Enabled(s, step) && t < |s.tasks|
    requires step.SwitchOut? || step.SwitchToIdle? || step.SetCurrent? || step.SetIdle?
    ensures t < |Apply(s, step).tasks| && Apply(s, step).tasks[t].state == s.tasks[t].state
  {
    hide AtBase;
  }

  lemma OwnStates(s: State, step: Step, t: nat)
    requires Sane(s) && Enabled(s, step) && t < |s.tasks|
    requires step.Disable? || step.Enable? || step.Yield? || step.Enter? || step.Tick? || step.Leave? || step.Fork?
      || step.ChooseIdle?
    ensures t < |Apply(s, step).tasks| && Apply(s, step).tasks[t].state == s.tasks[t].state
  {
    hide AtBase, Top;
  }

  lemma TaskCounts(s: State, step: Step)
    requires Inv(s) && Enabled(s, step)
    ensures |Apply(s, step).tasks| == |s.tasks| + if step.Fork? then 1 else 0
    ensures step.Fork? ==> Apply(s, step).tasks[|s.tasks|].state == Running
  {
    hide Select, Resumed;
  }

  lemma StateWritten(s: State, step: Step, t: nat)
    requires Inv(s) && Enabled(s, step) && t < |s.tasks| && (step.Block? || step.Die? || step.Wake?)
    ensures |Apply(s, step).tasks| == |s.tasks|
    ensures Apply(s, step).tasks[t].state ==
      if step.Wake? then (if t == step.t then Running else s.tasks[t].state)
      else if t != s.cores[step.c].current then s.tasks[t].state else if step.Block? then Waiting else Zombie
  {}

  /** At base a core's thread is its current task. */
  lemma BaseCurrent(s: State, c: nat)
    requires Inv(s) && c < |s.cores| && AtBase(Thread(s, c))
    ensures s.cores[c].current == s.cores[c].thread
  {
    assert CoreOk(s, c);
  }

  lemma OtherKeeps(j: Joint, step: Step)
    requires JointInv(j) && Possible(j, Other(step))
    ensures JointInv(Next(j, Other(step)))
  {
    hide Inv, Apply, Enabled, Sane, StateFits, Elsewhere;
    JointParts(j);
    EnabledHere(j, step);
    var s', m' := Apply(j.sched, step), Elsewhere(j, step);
    SchedulingProofs.StepKeeps(j.sched, step);
    ElsewhereKeeps(j, step);
    TaskCounts(j.sched, step);
    forall t | 0 <= t < |s'.tasks| ensures StateFits(s', m', t) {
      OtherFits(j, step, t);
    }
    RestIdle(j, step);
    Fits(s', m');
  }

  lemma JointParts(j: Joint)
    requires JointInv(j)
    ensures Sized(j) && Sane(j.sched)
  {}

  lemma EnabledHere(j: Joint, step: Step)
    requires Sized(j) && Possible(j, Other(step))
    ensures Enabled(j.sched, step) && Next(j, Other(step)) == Joint(Apply(j.sched, step), Elsewhere(j, step))
  {}

  /** The places kept for tasks to come stay untouched. */
  lemma RestIdle(j: Joint, step: Step)
    requires JointInv(j) && Possible(j, Other(step))
    ensures var m' := Elsewhere(j, step);
      && |Apply(j.sched, step).tasks| <= |m'.pc| == |m'.runnable|
      && forall t | |Apply(j.sched, step).tasks| <= t < |m'.pc| :: m'.runnable[t] && m'.pc[t] == Semaphores.Outside
  {
    TaskCounts(j.sched, step);
    ElsewhereKeeps(j, step);
    hide Apply, Inv;
  }

  lemma Fits(s: State, m: Semaphores.Sem)
    requires Inv(s) && Semaphores.Inv(m) && |s.tasks| <= |m.pc| == |m.runnable|
    requires forall t | 0 <= t < |s.tasks| :: StateFits(s, m, t)
    requires forall t | |s.tasks| <= t < |m.pc| :: m.runnable[t] && m.pc[t] == Semaphores.Outside
    ensures JointInv(Joint(s, m))
  {
    hide CoreOk, Placed, TasksOk;
    forall t | 0 <= t < |s.tasks|
      ensures m.runnable[t] <==> s.tasks[t].state == Running
      ensures s.tasks[t].state == Zombie ==> m.pc[t] == Semaphores.Outside
    {
      assert StateFits(s, m, t);
    }
  }

  predicate StateFits(s: State, m: Semaphores.Sem, t: nat) {
    && t < |s.tasks| && t < |m.runnable| && t < |m.pc|
    && (m.runnable[t] <==> s.tasks[t].state == Running)
    && (s.tasks[t].state == Zombie ==> m.pc[t] == Semaphores.Outside)
  }

  lemma ElsewhereKeeps(j: Joint, step: Step)
    requires JointInv(j) && Possible(j, Other(step))
    ensures Semaphores.Inv(Elsewhere(j, step)) && Elsewhere(j, step).pc == j.sem.pc
    ensures |Elsewhere(j, step).runnable| == |j.sem.runnable| == |j.sem.pc|
  {
    if step.Block? || step.Die? {
      Semaphores.StepKeeps(j.sem, Semaphores.Elsewhere(j.sched.cores[step.c].current, false));
    } else if step.Wake? {
      Semaphores.StepKeeps(j.sem, Semaphores.Elsewhere(step.t, true));
    }
  }

  lemma OtherFits(j: Joint, step: Step, t: nat)
    requires JointInv(j) && Possible(j, Other(step)) && t < |Apply(j.sched, step).tasks|
    ensures StateFits(Apply(j.sched, step), Elsewhere(j, step), t)
  {
    ElsewhereKeeps(j, step);
    TaskCounts(j.sched, step);
    if t == |j.sched.tasks| {
    } else if step.Block? || step.Die? || step.Wake? {
      StateWritten(j.sched, step, t);
    } else {
      StatesKept(j.sched, step, t);
    }
  }

  // ---- the steps of the semaphore

  lemma TryFacts(m: Semaphores.Sem, t: nat)
    requires Semaphores.Sized(m) && t < |m.pc| && m.pc[t].Looping?
    ensures var m' := Semaphores.ApplyTry(m, t);
      && |m'.runnable| == |m.runnable| && |m'.pc| == |m.pc|
      && m'.runnable == (if m.count > 0 then m.runnable else m.runnable[t := false])
      && forall u | 0 <= u < |m.pc| && u != t :: m'.pc[u] == m.pc[u]
  {}

  lemma TryKeeps(j: Joint, c: nat)
    requires JointInv(j) && Possible(j, TryWait(c))
    ensures JointInv(Next(j, TryWait(c)))
  {
    var s, m, t := j.sched, j.sem, j.sched.cores[c].thread;
    BaseCurrent(s, c);
    Semaphores.StepKeeps(m, Semaphores.Try(t));
    TryFacts(m, t);
    var m' := Semaphores.ApplyTry(m, t);
    if m.count > 0 {
      hide Inv, Semaphores.Inv, Semaphores.ApplyTry;
      assert forall u | 0 <= u < |s.tasks| :: StateFits(s, m', u);
      Fits(s, m');
    } else {
      SchedulingProofs.StepKeeps(s, Block(c));
      var s' := Apply(s, Block(c));
      TaskCounts(s, Block(c));
      forall u | 0 <= u < |s'.tasks| ensures StateFits(s', m', u) {
        StateWritten(s, Block(c), u);
      }
      hide Inv, Semaphores.Inv, Apply, Semaphores.ApplyTry;
      Fits(s', m');
    }
  }

  lemma BeginKeeps(j: Joint, c: nat)
    requires JointInv(j) && Possible(j, Begin(c))
    ensures JointInv(Next(j, Begin(c)))
  {
    var s, m, t := j.sched, j.sem, j.sched.cores[c].thread;
    Semaphores.StepKeeps(m, Semaphores.Begin(t));
    var m' := Semaphores.Apply(m, Semaphores.Begin(t));
    hide Inv, Semaphores.Inv;
    assert forall u | 0 <= u < |s.tasks| :: StateFits(s, m', u);
    Fits(s, m');
  }

  /** Whoever a signal wakes is a task that is TASK_WAITING. */
  lemma WokenWaits(j: Joint)
    requires JointInv(j)
    ensures Sized(j) && (Woken(j.sem).Some? <==> WakesTask(j))
    ensures Woken(j.sem).Some? ==> var w := Woken(j.sem).value;
      w < |j.sched.tasks| && j.sched.tasks[w].state == Waiting
      && Semaphores.ApplySignal(j.sem).runnable == j.sem.runnable[w := true]
    ensures Woken(j.sem).None? ==> Semaphores.ApplySignal(j.sem).runnable == j.sem.runnable
    ensures Semaphores.ApplySignal(j.sem).pc == j.sem.pc
  {
    var m := j.sem;
    var k := Semaphores.FirstAsleep(m.waiters, m.runnable);
    if k < |m.waiters| {
      var w := m.waiters[k];
      assert w in m.waiters && m.pc[w] == Semaphores.Looping(true) && !m.runnable[w];
    }
  }

  lemma SignalKeeps(j: Joint, c: nat)
    requires JointInv(j) && Possible(j, SignalBy(c))
    ensures JointInv(Next(j, SignalBy(c)))
  {
    var s, m := j.sched, j.sem;
    WokenWaits(j);
    Semaphores.StepKeeps(m, Semaphores.Step.Signal);
    var m' := Semaphores.ApplySignal(m);
    if Woken(m).Some? {
      var w := Woken(m).value;
      SchedulingProofs.StepKeeps(s, Wake(c, w));
      var s' := Apply(s, Wake(c, w));
      TaskCounts(s, Wake(c, w));
      forall u | 0 <= u < |s'.tasks| ensures StateFits(s', m', u) {
        StateWritten(s, Wake(c, w), u);
      }
      hide Inv, Semaphores.Inv, Apply, Semaphores.ApplySignal, Woken;
      Fits(s', m');
    } else {
      hide Inv, Semaphores.Inv, Semaphores.ApplySignal, Woken;
      assert forall u | 0 <= u < |s.tasks| :: StateFits(s, m', u);
      Fits(s, m');
    }
  }

  lemma ActKeeps(j: Joint, act: Act)
    requires JointInv(j) && Possible(j, act)
    ensures JointInv(Next(j, act))
  {
    hide JointInv, Possible, Next;
    match act {
      case Other(step) => OtherKeeps(j, step);
      case Begin(c) => BeginKeeps(j, c);
      case TryWait(c) => TryKeeps(j, c);
      case SignalBy(c) => SignalKeeps(j, c);
    }
  }

  // ---- when a signalled waiter runs

  /**
   * A signal that finds a sleeper makes it RUNNING and no other task. If it is off-cpu then, it can run again,
   * without a fork or a further wake-up, iff its counter is not negative or two tasks can take turns.
   */
  lemma SignalledRuns(j: Joint, c: nat)
    requires JointInv(j) && Possible(j, SignalBy(c)) && Woken(j.sem).Some?
    ensures var j', w := Next(j, SignalBy(c)), Woken(j.sem).value;
      && w < |j.sched.tasks| == |j'.sched.tasks| && j'.sched.tasks[w].state == Running
      && (forall u | 0 <= u < |j.sched.tasks| && u != w :: j'.sched.tasks[u].state == j.sched.tasks[u].state)
      && (Listed(j'.sched, w) && j'.sched.tasks[w].onCpu == -1 ==>
            (Recovers(j'.sched, w) <==> j'.sched.tasks[w].counter >= 0 || Alternates(j'.sched)))
  {
    var w := Woken(j.sem).value;
    WokenWaits(j);
    SignalKeeps(j, c);
    var j' := Next(j, SignalBy(c));
    TaskCounts(j.sched, Wake(c, w));
    forall u | 0 <= u < |j.sched.tasks|
      ensures j'.sched.tasks[u].state == if u == w then Running else j.sched.tasks[u].state
    {
      StateWritten(j.sched, Wake(c, w), u);
    }
    RunsExactly(j', w);
  }

  lemma RunsExactly(j: Joint, w: nat)
    requires JointInv(j) && w < |j.sched.tasks| && j.sched.tasks[w].state == Running
    ensures Listed(j.sched, w) && j.sched.tasks[w].onCpu == -1 ==>
      (Recovers(j.sched, w) <==> j.sched.tasks[w].counter >= 0 || Alternates(j.sched))
  {
    hide Inv, Recovers, Alternates;
    if Listed(j.sched, w) && j.sched.tasks[w].onCpu == -1 {
      TaskExact(j.sched, w);
    }
  }

  ghost predicate Run(j: Joint, acts: seq<Act>, j': Joint)
    decreases |acts|
  {
    if acts == [] then j' == j else Sized(j) && Possible(j, acts[0]) && Run(Next(j, acts[0]), acts[1..], j')
  }

  lemma {:induction false} RunKeeps(j: Joint, acts: seq<Act>, j': Joint)
    requires JointInv(j) && Run(j, acts, j')
    ensures JointInv(j')
    decreases |acts|
  {
    hide JointInv, Possible, Next;
    if acts != [] {
      ActKeeps(j, acts[0]);
      RunKeeps(Next(j, acts[0]), acts[1..], j');
    }
  }

  /**
   * In every reachable state, while the count is positive and tasks wait for it, one of them is a RUNNING task; and
   * unless it is on a core already, exactly these conditions say whether it can get there.
   */
  lemma NoLostWaiter(j0: Joint, count: nat, acts: seq<Act>, j: Joint)
    requires Boot(j0.sched) && Semaphores.Fresh(j0.sem, count) && Coupled(j0) && Run(j0, acts, j)
    requires j.sem.count > 0 && j.sem.waiters != []
    ensures exists w: nat :: w in j.sem.waiters && OnItsWay(j.sched, w)
  {
    BootInv(j0.sched);
    RunKeeps(j0, acts, j);
    hide Inv, Recovers, Alternates, Run;
    Semaphores.RunnableAll(j.sem.waiters, j.sem.runnable);
    var i :| 0 <= i < |j.sem.waiters| && j.sem.runnable[j.sem.waiters[i]];
    var w := j.sem.waiters[i];
    assert w in j.sem.waiters && j.sem.pc[w] == Semaphores.Looping(true);
    RunsExactly(j, w);
  }

  ghost predicate OnItsWay(s: State, w: nat) {
    && w < |s.tasks| && s.tasks[w].state == Running
    && (Listed(s, w) && s.tasks[w].onCpu == -1 ==> (Recovers(s, w) <==> s.tasks[w].counter >= 0 || Alternates(s)))
  }
}
