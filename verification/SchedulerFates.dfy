/** What becomes of a task that is off every core: the dead stay dead, and a counter below 0 waits for a recharge. */
module SchedulingFates {
  import opened Basics
  import opened Scheduling
  import opened SchedulingProofs
  import opened SchedulingRuns

  // ---- the record of a task that is on no core

  predicate OffAllCores(s: State, t: nat) {
    forall c | 0 <= c < |s.cores| :: s.cores[c].thread != t && s.cores[c].current != t
  }

  /** The record of `t` is as it was, and only core `c` has moved. */
  predicate Kept(s: State, s': State, c: nat, t: nat) {
    && t < |s.tasks| && t < |s'.tasks| && s'.tasks[t] == s.tasks[t] && |s'.cores| == |s.cores|
    && forall d | 0 <= d < |s.cores| && d != c :: s'.cores[d] == s.cores[d]
  }

  lemma OffCpuOff(s: State, t: nat)
    requires Inv(s) && t < |s.tasks| && s.tasks[t].onCpu == -1
    ensures OffAllCores(s, t)
  {
    forall c | 0 <= c < |s.cores| ensures s.cores[c].thread != t && s.cores[c].current != t {
      assert CoreOk(s, c);
    }
  }

  /** Core `c` neither executes `t` nor has it as its current task. */
  predicate OffCore(s: State, c: nat, t: nat) { c < |s.cores| && s.cores[c].thread != t && s.cores[c].current != t }

  lemma KeptOwn(s: State, step: Step, t: nat)
    requires Sane(s) && Enabled(s, step) && OffCore(s, step.c, t) && t < |s.tasks|
    requires step.Disable? || step.Enable? || step.Yield? || step.Enter? || step.Tick? || step.Leave?
      || step.Die? || step.Block?
    ensures Kept(s, Apply(s, step), step.c, t)
  {
    hide Top, AtBase;
  }

  lemma KeptLeaveCore(s: State, c: nat, prev: Task, n: nat, t: nat)
    requires Sane(s) && n < |s.tasks| && OffCore(s, c, t) && t < |s.tasks| && t != n
    ensures Kept(s, LeaveCore(s, c, prev, n), c, t)
  {}

  lemma KeptSwitchOut(s: State, c: nat, t: nat)
    requires Inv(s) && Enabled(s, SwitchOut(c)) && OffCore(s, c, t) && t < |s.tasks|
    ensures Kept(s, Apply(s, SwitchOut(c)), c, t)
  {
    assert CoreOk(s, c);
    KeptLeaveCore(s, c, AtPhase(Thread(s, c), Parked), Top(Thread(s, c)).value.next, t);
  }

  lemma KeptSwitchToIdle(s: State, c: nat, t: nat)
    requires Inv(s) && Enabled(s, SwitchToIdle(c)) && OffCore(s, c, t) && |s.cores| <= t < |s.tasks|
    ensures Kept(s, Apply(s, SwitchToIdle(c)), c, t)
  {
    KeptLeaveCore(s, c, Thread(s, c).(exit := Gone), c, t);
  }

  lemma KeptOther(s: State, step: Step, t: nat)
    requires Sane(s) && Enabled(s, step) && OffCore(s, step.c, t) && |s.cores| <= t < |s.tasks|
    requires step.Fork? || step.ChooseIdle? || step.SetCurrent? || step.SetIdle? || (step.Wake? && step.t != t)
    ensures Kept(s, Apply(s, step), step.c, t)
  {}

  /** Only being woken and the locked choice of _schedule touch a task of the list that the core is not busy with. */
  lemma KeptStep(s: State, step: Step, t: nat)
    requires Inv(s) && Enabled(s, step) && OffCore(s, step.c, t) && |s.cores| <= t < |s.tasks|
    requires !step.Pick? && !(step.Wake? && step.t == t)
    ensures Kept(s, Apply(s, step), step.c, t)
  {
    assert Sane(s);
    hide Apply, Enabled, Kept, OffCore, Inv, Sane;
    match step {
      case SwitchOut(c) => KeptSwitchOut(s, c, t);
      case SwitchToIdle(c) => KeptSwitchToIdle(s, c, t);
      case SetCurrent(_) => KeptOther(s, step, t);
      case SetIdle(_) => KeptOther(s, step, t);
      case Fork(_) => KeptOther(s, step, t);
      case ChooseIdle(_) => KeptOther(s, step, t);
      case Wake(_, _) => KeptOther(s, step, t);
      case _ => KeptOwn(s, step, t);
    }
  }

  /** The choice changes counters in a recharge, and claims the winner. */
  lemma PickRecord(s: State, c: nat, t: nat)
    requires Inv(s) && Enabled(s, Pick(c)) && OffCore(s, c, t) && t < |s.tasks|
    ensures var (ts, next) := Select(s.tasks, |s.cores|); var s' := Apply(s, Pick(c));
      && t < |s'.tasks| && s'.cores == s.cores
      && s'.tasks[t] == if next == Some(t) then ts[t].(onCpu := c) else ts[t]
  {
    hide Select;
  }

  // ---- the dead stay dead

  predicate DeadAndOff(s: State, t: nat) {
    t < |s.tasks| && s.tasks[t].state == Zombie && OffAllCores(s, t)
  }

  lemma DeadRecord(s: State, step: Step, t: nat)
    requires Inv(s) && Enabled(s, step) && DeadAndOff(s, t) && |s.cores| <= t
    ensures var s', c := Apply(s, step), step.c;
      && t < |s'.tasks| && s'.tasks[t].state == Zombie && |s'.cores| == |s.cores|
      && forall d | 0 <= d < |s.cores| && d != c :: s'.cores[d] == s.cores[d]
  {
    if step.Pick? {
      RechargeLike(s, Select(s.tasks, |s.cores|).0);
      PickRecord(s, step.c, t);
    } else {
      KeptStep(s, step, t);
    }
  }

  lemma DeadStep(s: State, step: Step, t: nat)
    requires Inv(s) && Enabled(s, step) && DeadAndOff(s, t)
    ensures DeadAndOff(Apply(s, step), t)
  {
    var s', c := Apply(s, step), step.c;
    StepKeeps(s, step);
    assert TaskOk(s.tasks[t], t, |s.cores|);
    DeadRecord(s, step, t);
    assert CoreOk(s, c) && CoreOk(s', c);
    assert TaskOk(s.tasks[c], c, |s.cores|);
  }

  /** A zombie that is off every core is never current, nor executed, on any core again. */
  lemma {:induction false} ZombieNeverReturns(s: State, steps: seq<Step>, s': State, t: nat)
    requires Inv(s) && Run(s, steps, s') && DeadAndOff(s, t)
    ensures DeadAndOff(s', t)
    decreases |steps|
  {
    if steps != [] {
      StepKeeps(s, steps[0]);
      DeadStep(s, steps[0], t);
      ZombieNeverReturns(Apply(s, steps[0]), steps[1..], s', t);
    }
  }

  // ---- a counter below 0

  /** A pick whose largest counter is 0, so that it recharges all counters. */
  predicate Recharges(s: State, step: Step)
    requires Sane(s)
  {
    step.Pick? &&
    var best := Scan(s.tasks, |s.cores|, |s.tasks|);
    best.Some? && s.tasks[best.value].counter == 0
  }

  /** A task of the list that no scan takes, because its counter is negative. */
  predicate Low(s: State, t: nat) {
    |s.cores| <= t < |s.tasks| && s.tasks[t].onCpu == -1 && s.tasks[t].counter < 0
  }

  lemma ScanNotLow(ts: seq<Task>, first: nat, t: nat)
    requires first <= t < |ts| && ts[t].counter < 0
    ensures Scan(ts, first, |ts|) != Some(t)
  {
    ScanIsBest(ts, first, |ts|);
  }

  /** A negative counter of an off-cpu task changes only in a pick that recharges; any other step leaves the task
      off-cpu with that counter. */
  lemma LowStep(s: State, step: Step, t: nat)
    requires Inv(s) && Enabled(s, step) && Low(s, t)
    ensures var s' := Apply(s, step); |s'.cores| == |s.cores| && t < |s'.tasks|
    ensures Recharges(s, step) ==> Apply(s, step).tasks[t].counter == s.tasks[t].counter / 2 + s.tasks[t].priority
    ensures !Recharges(s, step) ==> Low(Apply(s, step), t) && Apply(s, step).tasks[t].counter == s.tasks[t].counter
  {
    OffCpuOff(s, t);
    if step.Pick? {
      ScanNotLow(s.tasks, |s.cores|, t);
      hide Inv, Enabled, Apply, Scan;
      PickRecord(s, step.c, t);
    } else if step.Wake? && step.t == t {
    } else {
      hide Inv, Enabled, Apply;
      KeptStep(s, step, t);
    }
  }

  ghost predicate NoRecharge(s: State, steps: seq<Step>)
    decreases |steps|
  {
    steps != [] ==>
      Sane(s) && Enabled(s, steps[0]) && !Recharges(s, steps[0]) && NoRecharge(Apply(s, steps[0]), steps[1..])
  }

  /** As long as no pick recharges, the task is neither claimed nor executed, whatever else happens. */
  lemma {:induction false} LowUntilRecharge(s: State, steps: seq<Step>, s': State, t: nat)
    requires Inv(s) && Run(s, steps, s') && NoRecharge(s, steps) && Low(s, t)
    ensures Low(s', t) && s'.tasks[t].counter == s.tasks[t].counter && OffAllCores(s', t)
    decreases |steps|
  {
    if steps == [] {
      OffCpuOff(s, t);
    } else {
      StepKeeps(s, steps[0]);
      LowStep(s, steps[0], t);
      LowUntilRecharge(Apply(s, steps[0]), steps[1..], s', t);
    }
  }

  // ---- small facts

  lemma TaskCount(s: State, step: Step)
    requires Sane(s) && Enabled(s, step) && !step.Fork?
    ensures |Apply(s, step).tasks| == |s.tasks| && |Apply(s, step).cores| == |s.cores|
  {
    hide Select, Resumed;
  }

  lemma InvSane(s: State)
    requires Inv(s)
    ensures Sane(s)
  {}
}
