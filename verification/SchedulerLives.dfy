/** The two ends of a task: a forked task gets to run, and one that exits leaves its core for good. */
module SchedulingLives {
  import opened Scheduling
  import opened SchedulingProofs
  import opened SchedulingFates
  import opened SchedulingRecovery
  import opened SchedulingTurns
  import opened SchedulingExact

  // ---- fork

  /** A fork appends one task: RUNNING and off-cpu, saved as if inside a switch with preemption disabled once, with its
      parent's priority and a whole slice of that length. Nobody else changes, and some run takes the new task, without
      a further fork or a wake-up. */
  lemma ForkMeans(s: State, c: nat)
    requires Inv(s) && Enabled(s, Fork(c))
    ensures var s', t, p := Apply(s, Fork(c)), |s.tasks|, Current(s, c);
      && s'.cores == s.cores && |s'.tasks| == t + 1 && s'.tasks[..t] == s.tasks
      && s'.tasks[t] == Task(Running, p.priority, p.priority, 1, -1, 0, [Parked], NotLeaving)
      && Recovers(s', t)
  {
    ForkKeeps(s, c);
    var s' := Apply(s, Fork(c));
    assert TaskOk(Current(s, c), s.cores[c].current, |s.cores|);
    assert Eligible(s'.tasks[|s.tasks|]);
    hide Inv, Apply, Recovers, Alternates;
    TaskExact(s', |s.tasks|);
  }

  // ---- sleep

  /** A wake-up undoes falling asleep, from whatever core it comes, and leaves no other trace. */
  lemma SleepAndWake(s: State, c: nat, d: nat)
    requires Inv(s) && Enabled(s, Block(c)) && Current(s, c).state == Running && d < |s.cores|
    ensures var asleep, t := Apply(s, Block(c)), s.cores[c].current;
      && Sane(asleep) && asleep.tasks[t].state == Waiting && Enabled(asleep, Wake(d, t))
      && Apply(asleep, Wake(d, t)) == s
  {
    StepKeeps(s, Block(c));
    var asleep, t := Apply(s, Block(c)), s.cores[c].current;
    assert Apply(asleep, Wake(d, t)).tasks == s.tasks;
  }

  // ---- exit

  /** preempt_disable, the mark, preempt_enable: the task is a zombie, and that is all. */
  lemma Dies(s: State, c: nat, t: nat) returns (s': State)
    requires Inv(s) && AtWork(s, c, t)
    ensures Leads(s, s') && s' == WithTask(s, t, s.tasks[t].(state := Zombie)) && Inv(s')
  {
    hide Leads, Inv;
    InvSane(s);
    LeadsStep(s, Disable(c));
    var s1 := Apply(s, Disable(c));
    LeadsInv(s, s1);
    LeadsStep(s1, Die(c));
    var s2 := Apply(s1, Die(c));
    LeadsInv(s1, s2);
    LeadsThen(s, s1, s2);
    LeadsStep(s2, Enable(c));
    s' := Apply(s2, Enable(c));
    LeadsInv(s2, s');
    LeadsThen(s, s2, s');
    assert s'.tasks == WithTask(s, t, s.tasks[t].(state := Zombie)).tasks;
  }

  /** Core `c` executes the zombie `t`, outside _schedule. */
  predicate Haunted(s: State, c: nat, t: nat) {
    && c < |s.cores| && s.cores[c] == Core(t, t) && Listed(s, t)
    && s.tasks[t].state == Zombie && s.tasks[t].exit == NotLeaving && s.tasks[t].onCpu == c
  }

  /** schedule() up to the choice. */
  lemma ZombieChooses(s: State, c: nat, t: nat) returns (s': State)
    requires Inv(s) && Haunted(s, c, t) && s.tasks[t].sched == []
    ensures Leads(s, s') && Haunted(s', c, t) && s'.tasks[t].sched == [Entered] && s'.tasks[t].depth == s.tasks[t].depth
  {
    hide Leads, Inv;
    InvSane(s);
    LeadsStep(s, Yield(c));
    var s1 := Apply(s, Yield(c));
    LeadsInv(s, s1);
    LeadsStep(s1, Enter(c));
    s' := Apply(s1, Enter(c));
    assert s'.tasks[t].sched == [Entered];
    LeadsThen(s, s1, s');
  }

  /** Nobody was found: the zombie goes on behind schedule(), and leaves for the idle task. */
  lemma ZombieToIdle(s: State, c: nat, t: nat) returns (s': State)
    requires Inv(s) && Haunted(s, c, t) && s.tasks[t].sched == [Leaving] && s.tasks[t].depth == 0
    ensures Leads(s, s') && DeadAndOff(s', t) && c < |s'.cores| && s'.cores[c].thread == c
  {
    hide Leads, Inv;
    InvSane(s);
    LeadsStep(s, Leave(c));
    var s1 := Apply(s, Leave(c));
    assert Haunted(s1, c, t) && s1.tasks[t].sched == [] && s1.tasks[t].depth == 0;
    LeadsInv(s, s1);
    s' := ZombieLeaves(s1, c, t);
    LeadsThen(s, s1, s');
  }

  lemma ZombieLeaves(s: State, c: nat, t: nat) returns (s': State)
    requires Inv(s) && Haunted(s, c, t) && s.tasks[t].sched == [] && s.tasks[t].depth == 0
    ensures Leads(s, s') && DeadAndOff(s', t) && c < |s'.cores| && s'.cores[c].thread == c
  {
    hide Leads, Inv;
    InvSane(s);
    LeadsStep(s, ChooseIdle(c));
    var s1 := Apply(s, ChooseIdle(c));
    LeadsInv(s, s1);
    LeadsStep(s1, SetIdle(c));
    var s2 := Apply(s1, SetIdle(c));
    LeadsInv(s1, s2);
    LeadsThen(s, s1, s2);
    LeadsStep(s2, SwitchToIdle(c));
    s' := Apply(s2, SwitchToIdle(c));
    LeadsInv(s2, s');
    LeadsThen(s, s2, s');
    OffCpuOff(s', t);
  }

  lemma ZombiePicks(s: State, c: nat, t: nat) returns (s': State)
    requires Inv(s) && Haunted(s, c, t) && s.tasks[t].sched == [Entered] && s.tasks[t].depth == 0
    ensures Leads(s, s') && DeadAndOff(s', t)
  {
    InvSane(s);
    ChoosesNow(s, c, t);
    hide Inv, Leads, Enabled, Apply, Select;
    ChoiceIs(s, c);
    if SomeReady(s) {
      var b;
      s', b := GiveWay(s, c);
      LeadsInv(s, s');
      OffCpuOff(s', t);
    } else {
      ChoiceRecords(s, c);
      LeadsStep(s, Pick(c));
      var s1 := Apply(s, Pick(c));
      LeadsInv(s, s1);
      s' := ZombieToIdle(s1, c, t);
      LeadsThen(s, s1, s');
    }
  }

  lemma ChoosesNow(s: State, c: nat, t: nat)
    requires Sane(s) && Haunted(s, c, t) && s.tasks[t].sched == [Entered]
    ensures Enabled(s, Pick(c))
  {}

  /** A task that exits gives its core to the best ready task or, without one, to the core's idle task, and is never
      current or executed again. */
  lemma ExitCompletes(s: State, c: nat, t: nat) returns (s': State)
    requires Inv(s) && AtWork(s, c, t) && s.tasks[t].depth == 0
    ensures Leads(s, s') && DeadAndOff(s', t)
  {
    InvSane(s);
    hide Leads, Inv, DeadAndOff, Target;
    var s1 := Dies(s, c, t);
    var s2 := ZombieChooses(s1, c, t);
    LeadsInv(s1, s2);
    LeadsThen(s, s1, s2);
    s' := ZombiePicks(s2, c, t);
    LeadsThen(s, s2, s');
  }
}
