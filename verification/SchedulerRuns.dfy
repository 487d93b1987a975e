/** What the scheduler's invariant means for every run from boot, and the scheduler as it runs. */
module SchedulingRuns {
  import opened Basics
  import opened Scheduling
  import opened SchedulingProofs

  ghost predicate Run(s: State, steps: seq<Step>, s': State)
    decreases |steps|
  {
    if steps == [] then s' == s
    else Sane(s) && Enabled(s, steps[0]) && Sane(Apply(s, steps[0])) && Run(Apply(s, steps[0]), steps[1..], s')
  }

  /** sched_init and sched_init_secondary: every core runs its idle task, the run list is empty. */
  predicate Boot(s: State) {
    && |s.cores| > 0 && |s.tasks| == |s.cores|
    && (forall c | 0 <= c < |s.cores| ::
          s.cores[c] == Core(c, c) && s.tasks[c] == Task(Running, 1, 1, 0, c, 0, [], NotLeaving))
  }

  lemma BootInv(s: State)
    requires Boot(s)
    ensures Inv(s)
  {}

  lemma {:induction false} RunInv(s: State, steps: seq<Step>, s': State)
    requires Inv(s) && Run(s, steps, s')
    ensures Inv(s')
    decreases |steps|
  {
    if steps != [] {
      StepKeeps(s, steps[0]);
      RunInv(Apply(s, steps[0]), steps[1..], s');
    }
  }

  /** No step is ever stuck on a dangling reference: a step enabled in a good state leads to a sane one. */
  lemma RunExtends(s: State, step: Step)
    requires Inv(s) && Enabled(s, step)
    ensures Run(s, [step], Apply(s, step))
  {
    StepKeeps(s, step);
    var s' := Apply(s, step);
    assert [step][1..] == [];
    assert Run(s', [], s');
  }

  /** In every reachable state no task is current, or executing, on two cores, and each names its core in on_cpu. */
  lemma CurrentsDistinct(s0: State, steps: seq<Step>, s: State, c: nat, d: nat)
    requires Boot(s0) && Run(s0, steps, s) && c < |s.cores| && d < |s.cores| && c != d
    ensures Sane(s)
    ensures s.cores[c].current != s.cores[d].current && s.cores[c].thread != s.cores[d].thread
    ensures s.cores[c].current != s.cores[d].thread
    ensures s.tasks[s.cores[c].current].onCpu == c && s.tasks[s.cores[c].thread].onCpu == c
  {
    BootInv(s0);
    RunInv(s0, steps, s);
    assert CoreOk(s, c) && CoreOk(s, d);
  }

  /** A task somebody may claim always has preemption disabled: a tick between the two halves of a switch only
      counts. */
  lemma ClaimableNotPreemptible(s0: State, steps: seq<Step>, s: State, t: nat)
    requires Boot(s0) && Run(s0, steps, s) && t < |s.tasks|
    ensures s.tasks[t].state != Zombie && s.tasks[t].onCpu == -1 ==>
      s.tasks[t].preempt >= 1 && s.tasks[t].sched == [Parked]
    ensures s.tasks[t].preempt >= 0 && |s.tasks[t].sched| <= 1
    ensures s.tasks[t].counter <= 2 * s.tasks[t].priority
  {
    BootInv(s0);
    RunInv(s0, steps, s);
    assert TaskOk(s.tasks[t], t, |s.cores|);
    if s.tasks[t].state != Zombie && s.tasks[t].onCpu == -1 {
      ClaimableParked(s, t);
    }
  }

  /** A tick that arrives inside _schedule or inside a switch never starts a second _schedule. */
  lemma NoReentry(s0: State, steps: seq<Step>, s: State, c: nat, t: nat)
    requires Boot(s0) && Run(s0, steps, s) && c < |s.cores| && Sane(s) && t < |s.tasks|
    requires Thread(s, c).sched != [] || Thread(s, c).exit == IdleCurrent
    ensures var s' := Apply(s, Tick(c));
      s'.cores == s.cores && |s'.tasks| == |s.tasks| && s'.tasks[t] == s.tasks[t].(counter := s'.tasks[t].counter)
  {
    BootInv(s0);
    RunInv(s0, steps, s);
    TickInSwitch(s, c);
  }

  /** A core only ever comes back to a thread that was saved inside cpu_switch_to, or has just been created. */
  lemma ResumesSaved(s0: State, steps: seq<Step>, s: State, c: nat)
    requires Boot(s0) && Run(s0, steps, s) && Sane(s) && c < |s.cores|
    requires Enabled(s, SwitchOut(c)) || Enabled(s, SwitchToIdle(c))
    ensures var n := s.cores[c].current; n != s.cores[c].thread && s.tasks[n].sched == [Parked]
    ensures Enabled(s, SwitchOut(c)) ==> Swapped(s, Apply(s, SwitchOut(c)), c)
    ensures Enabled(s, SwitchToIdle(c)) ==> Swapped(s, Apply(s, SwitchToIdle(c)), c)
  {
    BootInv(s0);
    RunInv(s0, steps, s);
    hide Inv, Enabled, Swapped, Apply;
    if Enabled(s, SwitchOut(c)) {
      SwitchOutSwaps(s, c);
    }
    if Enabled(s, SwitchToIdle(c)) {
      SwitchToIdleSwaps(s, c);
    }
  }

  lemma SwitchOutSwaps(s: State, c: nat)
    requires Inv(s) && Enabled(s, SwitchOut(c))
    ensures var n := s.cores[c].current; n != s.cores[c].thread && s.tasks[n].sched == [Parked]
    ensures Swapped(s, Apply(s, SwitchOut(c)), c)
  {
    assert CoreOk(s, c) && TaskOk(Thread(s, c), s.cores[c].thread, |s.cores|);
    LeaveCoreSwaps(s, c, AtPhase(Thread(s, c), Parked), s.cores[c].current);
  }

  lemma SwitchToIdleSwaps(s: State, c: nat)
    requires Inv(s) && Enabled(s, SwitchToIdle(c))
    ensures var n := s.cores[c].current; n != s.cores[c].thread && s.tasks[n].sched == [Parked]
    ensures Swapped(s, Apply(s, SwitchToIdle(c)), c)
  {
    assert CoreOk(s, c) && TaskOk(Thread(s, c), s.cores[c].thread, |s.cores|);
    LeaveCoreSwaps(s, c, Thread(s, c).(exit := Gone), s.cores[c].current);
  }

  /** The core goes on, inside _schedule, with the task it made current; the old thread's task is off-cpu. */
  predicate Swapped(s: State, s': State, c: nat) {
    && c < |s.cores| == |s'.cores| && s.cores[c].thread < |s'.tasks| && s.cores[c].current < |s'.tasks|
    && s'.cores[c] == Core(s.cores[c].current, s.cores[c].current)
    && s'.tasks[s.cores[c].current].sched == [Leaving]
    && s'.tasks[s.cores[c].thread].onCpu == -1
  }

  lemma LeaveCoreSwaps(s: State, c: nat, prev: Task, n: nat)
    requires Sane(s) && c < |s.cores| && n == s.cores[c].current && n != s.cores[c].thread
    requires s.tasks[n].sched == [Parked]
    ensures Swapped(s, LeaveCore(s, c, prev, n), c)
  {}

  /** Executing, claimed by the core it names, or an idle task at rest on its own core. */
  predicate Engaged(s: State, t: nat)
    requires Sane(s) && t < |s.tasks|
  {
    var r := s.tasks[t];
    && 0 <= r.onCpu < |s.cores|
    && (s.cores[r.onCpu].thread == t || (r.sched == [Parked] && (Target(s, r.onCpu) == Some(t) || r.onCpu == t)))
  }

  /** RUNNING, saved and off-cpu, but its counter went below 0 while it had preemption disabled: no scan takes it. */
  predicate PassedOver(r: Task) {
    r.state == Running && r.onCpu == -1 && r.sched == [Parked] && r.counter < 0
  }

  predicate Sleeping(r: Task) { r.state == Waiting && r.onCpu == -1 && r.sched == [Parked] }

  predicate Dead(r: Task) { r.state == Zombie && Asleep(r) }

  /** No task is lost: it is engaged, a scan may take it, it waits to be woken, it is dead, or its counter is
      negative. */
  lemma NoTaskLost(s0: State, steps: seq<Step>, s: State, t: nat)
    requires Boot(s0) && Run(s0, steps, s) && t < |s.tasks|
    ensures Sane(s)
    ensures Engaged(s, t) || Eligible(s.tasks[t]) || Sleeping(s.tasks[t]) || Dead(s.tasks[t]) || PassedOver(s.tasks[t])
    ensures Eligible(s.tasks[t]) ==> s.tasks[t].sched == [Parked] && !Engaged(s, t) && !PassedOver(s.tasks[t])
  {
    BootInv(s0);
    RunInv(s0, steps, s);
    assert Placed(s, t) && TaskOk(s.tasks[t], t, |s.cores|);
  }

  /** What a core takes: the first task of the list with the largest counter among those RUNNING and off-cpu. */
  lemma PickChooses(s: State, c: nat)
    requires Inv(s) && Enabled(s, Pick(c))
    ensures Chosen(s, c, Select(s.tasks, |s.cores|).0, Select(s.tasks, |s.cores|).1, Apply(s, Pick(c)))
  {
    var (ts, next) := Select(s.tasks, |s.cores|);
    RechargeLike(s, ts);
    assert forall i | 0 <= i < |s.tasks| :: TaskOk(s.tasks[i], i, |s.cores|);
    SelectIs(s.tasks, |s.cores|);
    assert ts == s.tasks || ts == Recharge(s.tasks, |s.cores|);
    hide Apply, Enabled, Select, CoreOk, Placed, Chosen;
    PickKeeps(s, c);
    PickIs(s, c, ts, next);
    if next.Some? {
      ClaimKeeps(s.(tasks := ts), c, next.value);
    }
    ChosenIs(s, c, ts, next);
  }

  ghost predicate Chosen(s: State, c: nat, ts: seq<Task>, r: Option<nat>, s': State)
    requires Sane(s)
  {
    && Sane(s') && s'.cores == s.cores && c < |s.cores| && Target(s', c) == r
    && |ts| == |s.tasks| && IsBest(ts, |s.cores|, |ts|, r) && (r.Some? <==> SomeEligible(s.tasks, |s.cores|))
    && (r.Some? ==> s'.tasks[r.value].onCpu == c && ts[r.value].onCpu == -1)
    && (ts == s.tasks || ts == Recharge(s.tasks, |s.cores|))
  }

  lemma ChosenIs(s: State, c: nat, ts: seq<Task>, r: Option<nat>)
    requires Sane(s) && c < |s.cores| && |ts| == |s.tasks| && Sane(s.(tasks := ts))
    requires Thread(s.(tasks := ts), c).sched == [Entered]
    requires IsBest(ts, |s.cores|, |ts|, r) && (r.Some? <==> SomeEligible(s.tasks, |s.cores|))
    requires ts == s.tasks || ts == Recharge(s.tasks, |s.cores|)
    ensures r.None? && Sane(WithThread(s.(tasks := ts), c, AtPhase(Thread(s.(tasks := ts), c), Leaving))) ==>
      Chosen(s, c, ts, r, WithThread(s.(tasks := ts), c, AtPhase(Thread(s.(tasks := ts), c), Leaving)))
    ensures r.Some? && r.value != s.cores[c].thread && Sane(WithClaim(s.(tasks := ts), c, r.value)) ==>
      Chosen(s, c, ts, r, WithClaim(s.(tasks := ts), c, r.value))
  {}

  // ---- the scheduler as it runs

  /** The task records and the per-core data; index `c` below the number of cores is the idle task of core `c`. */
  class Scheduler {
    var tasks: seq<Task>
    var cores: seq<Core>

    function View(): State
      reads this
    {
      State(tasks, cores)
    }

    constructor (n: nat)
      requires n > 0
      ensures Boot(View()) && |cores| == n
    {
      tasks := seq(n, c requires 0 <= c => Task(Running, 1, 1, 0, c, 0, [], NotLeaving));
      cores := seq(n, c requires 0 <= c => Core(c, c));
    }

    method AddTask(t: Task)
      modifies this`tasks
      ensures tasks == old(tasks) + [t]
    {
      tasks := tasks + [t];
    }

    /** copy_process, from the copied fields to add_task, by the current task of core `c`. */
    method CopyProcess(c: nat)
      requires Inv(View()) && Enabled(View(), Fork(c))
      modifies this`tasks
      ensures View() == Apply(old(View()), Fork(c)) && Inv(View())
    {
      ForkKeeps(View(), c);
      var current := tasks[cores[c].current];
      AddTask(Task(Running, current.priority, current.priority, 1, -1, 0, [Parked], NotLeaving));
    }

    /** The scan of _schedule: the winner's index and counter, both -1 without one. */
    method BestTask() returns (next: int, c: int)
      requires |cores| <= |tasks|
      ensures match Scan(tasks, |cores|, |tasks|)
        case None => next == -1 && c == -1
        case Some(n) => next == n && c == tasks[n].counter
    {
      c, next := -1, -1;
      var i := |cores|;
      while i < |tasks|
        invariant |cores| <= i <= |tasks|
        invariant match Scan(tasks, |cores|, i)
          case None => next == -1 && c == -1
          case Some(n) => next == n && c == tasks[n].counter
      {
        if tasks[i].state == Running && tasks[i].onCpu == -1 && tasks[i].counter > c {
          c := tasks[i].counter;
          next := i;
        }
        i := i + 1;
      }
    }

    method RechargeAll()
      requires |cores| <= |tasks|
      modifies this`tasks
      ensures tasks == Recharge(old(tasks), |cores|)
    {
      var i := |cores|;
      while i < |tasks|
        invariant |cores| <= i <= |tasks| && |tasks| == |old(tasks)|
        invariant forall j | 0 <= j < |tasks| ::
          tasks[j] == if |cores| <= j < i then Recharged(old(tasks)[j]) else old(tasks)[j]
      {
        tasks := tasks[i := tasks[i].(counter := tasks[i].counter / 2 + tasks[i].priority)];
        i := i + 1;
      }
    }

    /** The locked loop of _schedule: scan, and recharge as long as the best counter is 0. */
    method Choose() returns (next: int, ghost passes: nat)
      requires Inv(View())
      modifies this`tasks
      ensures 1 <= passes <= 2
      ensures tasks == Select(old(tasks), |cores|).0
      ensures match Select(old(tasks), |cores|).1 case None => next == -1 case Some(n) => next == n
    {
      ghost var ts := tasks;
      ghost var best := Scan(ts, |cores|, |ts|);
      PrioritiesPositive(View());
      SelectIs(tasks, |cores|);
      hide Inv, Scan, Recharge;
      passes := 0;
      while true
        invariant passes <= 1 && |cores| <= |tasks|
        invariant passes == 0 ==> tasks == ts
        invariant passes == 1 ==> best.Some? && ts[best.value].counter == 0 && tasks == Recharge(ts, |cores|)
        decreases 2 - passes
      {
        passes := passes + 1;
        var c: int;
        next, c := BestTask();
        if c != 0 {
          return;
        }
        RechargeAll();
      }
    }

    /** _schedule between preempt_disable and switch_to, by the thread core `c` executes. */
    method PickNext(c: nat)
      requires Inv(View()) && Enabled(View(), Pick(c))
      modifies this`tasks
      ensures View() == Apply(old(View()), Pick(c)) && Inv(View())
    {
      PickKeeps(View(), c);
      ghost var s := View();
      RechargeLike(s, Select(s.tasks, |s.cores|).0);
      var next, passes := Choose();
      var e := cores[c].thread;
      assert tasks[e].sched == s.tasks[e].sched;
      if next >= 0 && next != cores[c].current {
        tasks := tasks[next := tasks[next].(onCpu := c)];
        tasks := tasks[e := AtPhase(tasks[e], Claimed(next))];
      } else {
        tasks := tasks[e := AtPhase(tasks[e], Leaving)];
      }
    }

    /** timer_tick on core `c`. */
    method TimerTick(c: nat)
      requires Inv(View()) && c < |cores|
      modifies this`tasks
      ensures View() == Apply(old(View()), Tick(c)) && Inv(View())
    {
      TickKeeps(View(), c);
      var cur := cores[c].current;
      tasks := tasks[cur := tasks[cur].(counter := tasks[cur].counter - 1)];
      if tasks[cur].counter > 0 || tasks[cur].preempt > 0 {
        return;
      }
      tasks := tasks[cur := tasks[cur].(counter := 0)];
      tasks := tasks[cur := tasks[cur].(preempt := tasks[cur].preempt + 1)];
      var e := cores[c].thread;
      tasks := tasks[e := tasks[e].(sched := tasks[e].sched + [Entered])];
    }

    /** switch_to up to the assignment of current_task. */
    method SwitchTo(c: nat)
      requires Inv(View()) && Enabled(View(), SetCurrent(c))
      modifies this
      ensures View() == Apply(old(View()), SetCurrent(c)) && Inv(View())
    {
      SetCurrentKeeps(View(), c);
      var e := cores[c].thread;
      var next := tasks[e].sched[|tasks[e].sched| - 1].next;
      tasks := tasks[e := AtPhase(tasks[e], Switching(next))];
      cores := cores[c := cores[c].(current := next)];
    }

    /** switch_to from prev->on_cpu = -1 on, with the stacks exchanged by cpu_switch_to. */
    method FinishSwitch(c: nat)
      requires Inv(View()) && Enabled(View(), SwitchOut(c))
      modifies this
      ensures View() == Apply(old(View()), SwitchOut(c)) && Inv(View())
    {
      SwitchOutKeeps(View(), c);
      var prev := cores[c].thread;
      var next := tasks[prev].sched[|tasks[prev].sched| - 1].next;
      tasks := tasks[prev := AtPhase(tasks[prev], Parked).(onCpu := -1)];
      cores := cores[c := cores[c].(thread := next)];
      tasks := tasks[next := Resumed(tasks[next])];
    }

    /** preempt_disable, by code outside _schedule. */
    method PreemptDisable(c: nat)
      requires Inv(View()) && Enabled(View(), Disable(c))
      modifies this`tasks
      ensures View() == Apply(old(View()), Disable(c)) && Inv(View())
    {
      BaseStep(View(), Disable(c));
      var current, e := cores[c].current, cores[c].thread;
      tasks := tasks[current := tasks[current].(preempt := tasks[current].preempt + 1)];
      tasks := tasks[e := tasks[e].(depth := tasks[e].depth + 1)];
    }

    /** preempt_enable, by code outside _schedule. */
    method PreemptEnable(c: nat)
      requires Inv(View()) && Enabled(View(), Enable(c))
      modifies this`tasks
      ensures View() == Apply(old(View()), Enable(c)) && Inv(View())
    {
      BaseStep(View(), Enable(c));
      var current, e := cores[c].current, cores[c].thread;
      tasks := tasks[current := tasks[current].(preempt := tasks[current].preempt - 1)];
      tasks := tasks[e := tasks[e].(depth := tasks[e].depth - 1)];
    }

    /** schedule up to the call of _schedule. */
    method GiveUpSlice(c: nat)
      requires Inv(View()) && Enabled(View(), Yield(c))
      modifies this`tasks
      ensures View() == Apply(old(View()), Yield(c)) && Inv(View())
    {
      BaseStep(View(), Yield(c));
      var current := cores[c].current;
      tasks := tasks[current := tasks[current].(counter := 0)];
    }

    /** preempt_disable at the head of _schedule. */
    method BeginSchedule(c: nat)
      requires Inv(View()) && Enabled(View(), Enter(c))
      modifies this`tasks
      ensures View() == Apply(old(View()), Enter(c)) && Inv(View())
    {
      EnterStep(View(), c);
      var current, e := cores[c].current, cores[c].thread;
      tasks := tasks[current := tasks[current].(preempt := tasks[current].preempt + 1)];
      tasks := tasks[e := tasks[e].(sched := tasks[e].sched + [Entered])];
    }

    /** The end of _schedule, and schedule_tail for a task that runs for the first time. */
    method LeaveSchedule(c: nat)
      requires Inv(View()) && Enabled(View(), Leave(c))
      modifies this`tasks
      ensures View() == Apply(old(View()), Leave(c)) && Inv(View())
    {
      BaseStep(View(), Leave(c));
      var current, e := cores[c].current, cores[c].thread;
      var sched := tasks[e].sched;
      tasks := tasks[current := tasks[current].(preempt := tasks[current].preempt - 1)];
      tasks := tasks[e := tasks[e].(sched := sched[..|sched| - 1])];
    }

    /** The locked part of exit_process: the list is searched for the current task. */
    method MarkZombie(c: nat)
      requires Inv(View()) && Enabled(View(), Die(c))
      modifies this`tasks
      ensures View() == Apply(old(View()), Die(c)) && Inv(View())
    {
      BaseStep(View(), Die(c));
      var current, p := cores[c].current, |cores|;
      while p < |tasks| && p != current
        invariant |cores| <= p <= current
      {
        p := p + 1;
      }
      tasks := tasks[p := tasks[p].(state := Zombie)];
    }

    /** switch_to_idle up to the assignment of current_task, by a zombie that found nothing to switch to. */
    method PrepareIdle(c: nat)
      requires Inv(View()) && Enabled(View(), ChooseIdle(c))
      modifies this`tasks
      ensures View() == Apply(old(View()), ChooseIdle(c)) && Inv(View())
    {
      ChooseIdleKeeps(View(), c);
      var e := cores[c].thread;
      tasks := tasks[c := tasks[c].(onCpu := c)];
      tasks := tasks[e := tasks[e].(exit := IdleChosen)];
    }

    /** switch_to(idle) up to the assignment of current_task. */
    method SwitchToIdleTask(c: nat)
      requires Inv(View()) && Enabled(View(), SetIdle(c))
      modifies this
      ensures View() == Apply(old(View()), SetIdle(c)) && Inv(View())
    {
      SetIdleKeeps(View(), c);
      var e := cores[c].thread;
      tasks := tasks[e := tasks[e].(exit := IdleCurrent)];
      cores := cores[c := cores[c].(current := c)];
    }

    /** switch_to(idle) from prev->on_cpu = -1 on: the zombie's stack is left for good. */
    method FinishIdleSwitch(c: nat)
      requires Inv(View()) && Enabled(View(), SwitchToIdle(c))
      modifies this
      ensures View() == Apply(old(View()), SwitchToIdle(c)) && Inv(View())
    {
      SwitchToIdleKeeps(View(), c);
      var prev := cores[c].thread;
      tasks := tasks[prev := tasks[prev].(exit := Gone, onCpu := -1)];
      cores := cores[c := cores[c].(thread := c)];
      tasks := tasks[c := Resumed(tasks[c])];
    }
  }

  lemma PrioritiesPositive(s: State)
    requires Inv(s)
    ensures |s.cores| <= |s.tasks| && forall i | 0 <= i < |s.tasks| :: s.tasks[i].priority >= 1
  {
    assert forall i | 0 <= i < |s.tasks| :: TaskOk(s.tasks[i], i, |s.cores|);
  }
}
