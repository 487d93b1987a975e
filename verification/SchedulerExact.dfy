/** Exactly when a waiting task can run again without a fork or a wake-up, and a run from boot after which it cannot. */
module SchedulingExact {
  import opened Basics
  import opened Scheduling
  import opened SchedulingProofs
  import opened SchedulingRuns
  import opened SchedulingFates
  import opened SchedulingRecovery
  import opened SchedulingTurns

  // ---- the theorems

  /**
   * A RUNNING task that is off-cpu runs again in some run without forks and wake-ups iff its counter is not negative
   * or two tasks can take turns; in any state, whatever the cores are doing.
   */
  lemma TaskExact(s: State, t: nat)
    requires Inv(s) && Waits(s, t)
    ensures Recovers(s, t) <==> Eligible(s.tasks[t]) || Alternates(s)
  {
    if Eligible(s.tasks[t]) {
      ReadyRecovers(s, t);
    } else if Alternates(s) {
      AlternatesRecover(s, t);
    } else {
      OffCpuParked(s, t);
      NeverRecovers(s, t);
    }
  }

  lemma AlternatesRecover(s: State, t: nat)
    requires Inv(s) && Alternates(s) && Waits(s, t)
    ensures Recovers(s, t)
  {
    hide Inv, SomePassing, TwoReady, SomeReady, SomeWorking, SomeReadyZero, SomeLiftable;
    if SomePassing(s) {
      PassingRecovers(s, t);
    } else if TwoReady(s) {
      TwoRecover(s, t);
    } else if SomeReady(s) && SomeWorking(s) {
      WorkingRecovers(s, t);
    } else {
      LiftableRecovers(s, t);
    }
  }

  lemma NeverRecovers(s: State, t: nat)
    requires Inv(s) && !Alternates(s) && Listed(s, t) && PassedOver(s.tasks[t])
    ensures !Recovers(s, t)
  {
    hide Inv, Alternates, Run, Closed;
    forall s': State | Leads(s, s') ensures t < |s'.tasks| && PassedOver(s'.tasks[t]) {
      var steps :| Run(s, steps, s') && forall i | 0 <= i < |steps| :: Closed(steps[i]);
      NeverRun(s, steps, s', t);
    }
  }

  predicate AllOff(s: State) { forall t | |s.cores| <= t < |s.tasks| :: s.tasks[t].onCpu == -1 }

  /** When every listed task is off-cpu: two of them are ready, or one with counter 0 and one that a recharge lifts. */
  lemma IdleExact(s: State, t: nat)
    requires Inv(s) && AllOff(s) && Listed(s, t) && PassedOver(s.tasks[t])
    ensures Recovers(s, t) <==> TwoReady(s) || (SomeReadyZero(s) && SomeLiftable(s))
  {
    TaskExact(s, t);
    forall i | Listed(s, i) ensures !Working(s.tasks[i]) && !Passing(s.tasks[i]) {
      OffCpuParked(s, i);
    }
  }

  /** In some closed run some choice finds somebody. */
  ghost predicate SomeChoice(s: State) {
    exists s': State, c: nat :: Leads(s, s') && Sane(s') && Enabled(s', Pick(c)) && SomeReady(s')
  }

  /** A choice finds somebody in some closed run iff a task is ready, or is about to park with a counter of at least
      0. */
  lemma ChoiceExact(s: State)
    requires Inv(s)
    ensures SomeChoice(s) <==> SomeReady(s) || SomePassing(s)
  {
    hide Inv, Leads, SomeReady, SomePassing;
    if SomeReady(s) || SomePassing(s) {
      ChoiceComes(s);
    } else {
      forall s': State | Leads(s, s') ensures !SomeReady(s') {
        NoChoiceLeads(s, s');
      }
    }
  }

  lemma ReadyComes(s: State)
    requires Inv(s) && SomeReady(s)
    ensures SomeChoice(s)
  {
    InvSane(s);
    var i :| Listed(s, i) && Eligible(s.tasks[i]);
    var s' := ToChoice(s, 0);
    hide Inv, Leads, Enabled;
    ReadyHere(s', i);
  }

  lemma ChoiceComes(s: State)
    requires Inv(s) && (SomeReady(s) || SomePassing(s))
    ensures SomeChoice(s)
  {
    if SomeReady(s) {
      ReadyComes(s);
    } else {
      var i :| Listed(s, i) && Passing(s.tasks[i]);
      var c, n := PassingCore(s, i);
      var s1 := Finish(s, c, n);
      LeadsInv(s, s1);
      hide Inv, Leads;
      assert Eligible(s1.tasks[i]);
      ReadyHere(s1, i);
      ReadyComes(s1);
      var s', d :| Leads(s1, s') && Sane(s') && Enabled(s', Pick(d)) && SomeReady(s');
      LeadsThen(s, s1, s');
    }
  }

  lemma NoChoiceStep(s: State, step: Step)
    requires Inv(s) && Enabled(s, step) && Closed(step) && !SomeReady(s) && !SomePassing(s)
    ensures !SomeReady(Apply(s, step)) && !SomePassing(Apply(s, step))
  {
    var s' := Apply(s, step);
    assert Sane(s);
    TaskCount(s, step);
    assert SomeReadyZero(s) ==> SomeReady(s);
    assert TwoReady(s) ==> SomeReady(s);
    hide Inv, Enabled, Apply, NoGain;
    if step.Pick? {
      ChoiceStays(s, step.c);
      NothingReady(s');
    } else {
      forall i | Listed(s, i) ensures NoGain(s.tasks[i], s'.tasks[i]) {
        StepGain(s, step, i);
      }
      GainsKept(s, s');
    }
  }

  lemma {:induction false} NoChoiceRun(s: State, steps: seq<Step>, s': State)
    requires Inv(s) && Run(s, steps, s') && !SomeReady(s) && !SomePassing(s)
    requires forall i | 0 <= i < |steps| :: Closed(steps[i])
    ensures !SomeReady(s')
    decreases |steps|
  {
    hide Inv, Apply, Enabled, Sane, Closed, SomeReady, SomePassing;
    if steps != [] {
      StepKeeps(s, steps[0]);
      NoChoiceStep(s, steps[0]);
      assert forall i | 0 <= i < |steps[1..]| :: steps[1..][i] == steps[i + 1];
      NoChoiceRun(Apply(s, steps[0]), steps[1..], s');
    }
  }

  lemma NoChoiceLeads(s: State, s': State)
    requires Leads(s, s') && !SomeReady(s) && !SomePassing(s)
    ensures !SomeReady(s')
  {
    hide Inv, Run, Closed, SomeReady, SomePassing;
    var steps :| Run(s, steps, s') && forall i | 0 <= i < |steps| :: Closed(steps[i]);
    NoChoiceRun(s, steps, s');
  }

  // ---- such a state is reached

  ghost predicate Reaches(s0: State, s: State) {
    Inv(s0) && Inv(s) && exists steps: seq<Step> :: Run(s0, steps, s)
  }

  lemma ReachesStep(s0: State, s: State, step: Step) returns (s': State)
    requires Reaches(s0, s) && Enabled(s, step)
    ensures Reaches(s0, s') && Sane(s') && s' == Apply(s, step)
  {
    s' := Apply(s, step);
    var steps :| Run(s0, steps, s);
    RunExtends(s, step);
    StepKeeps(s, step);
    hide Apply, Enabled;
    RunThen(s0, steps, s, [step], s');
    assert Run(s0, steps + [step], s');
  }

  lemma ReachesLeads(s0: State, s: State, s': State)
    requires Reaches(s0, s) && Leads(s, s')
    ensures Reaches(s0, s')
  {
    hide Inv, Closed;
    var a :| Run(s0, a, s);
    var b :| Run(s, b, s') && forall i | 0 <= i < |b| :: Closed(b[i]);
    RunThen(s0, a, s, b, s');
  }

  /** What fork leaves of a parent with priority 1. */
  function NewBorn(): Task { Task(Running, 1, 1, 1, -1, 0, [Parked], NotLeaving) }

  /** The idle task of core 0 is the only one that has done anything yet. */
  predicate Starting(s: State, n: nat, preempt: int, depth: nat, sched: seq<Phase>, born: nat) {
    && 0 < n == |s.cores| && |s.tasks| == n + born && s.cores[0] == Core(0, 0)
    && s.tasks[0] == Task(Running, 1, 1, preempt, 0, depth, sched, NotLeaving)
    && forall i | n <= i < |s.tasks| :: s.tasks[i] == NewBorn()
  }

  lemma ForkOne(s0: State, s: State, n: nat, k: nat) returns (s': State)
    requires Reaches(s0, s) && Sane(s) && Starting(s, n, 1, 1, [], k)
    ensures Reaches(s0, s') && Sane(s') && Starting(s', n, 1, 1, [], k + 1)
  {
    hide Reaches, Sane;
    s' := ReachesStep(s0, s, Fork(0));
  }

  lemma TwoForks(s0: State) returns (s: State)
    requires Boot(s0)
    ensures Reaches(s0, s) && Sane(s) && Starting(s, |s0.tasks|, 1, 0, [Entered], 2) && |s.cores| == |s0.tasks|
  {
    BootInv(s0);
    assert Run(s0, [], s0);
    var n := |s0.tasks|;
    assert Starting(s0, n, 0, 0, [], 0);
    hide Inv, Run, Reaches, Sane, Boot;
    s := ReachesStep(s0, s0, Disable(0));
    assert Starting(s, n, 1, 1, [], 0);
    s := ForkOne(s0, s, n, 0);
    s := ForkOne(s0, s, n, 1);
    s := BackInside(s0, s, n);
  }

  lemma BackInside(s0: State, s: State, n: nat) returns (s': State)
    requires Reaches(s0, s) && Sane(s) && Starting(s, n, 1, 1, [], 2)
    ensures Reaches(s0, s') && Sane(s') && Starting(s', n, 1, 0, [Entered], 2)
  {
    hide Reaches, Sane;
    s' := ReachesStep(s0, s, Enable(0));
    assert Starting(s', n, 0, 0, [], 2);
    s' := ReachesStep(s0, s', Enter(0));
  }

  /** The first of two new tasks is taken, with no recharge. */
  lemma FirstTaken(s: State, n: nat)
    requires Sane(s) && 0 < n == |s.cores| && |s.tasks| == n + 2 && s.tasks[n] == s.tasks[n + 1] == NewBorn()
    ensures Select(s.tasks, n) == (s.tasks, Some(n)) && SomeReady(s)
  {
    ScanIsBest(s.tasks, n, |s.tasks|);
    assert Listed(s, n) && Eligible(s.tasks[n]) && Eligible(s.tasks[n + 1]);
  }

  lemma SecondTaken(s: State, n: nat)
    requires Sane(s) && 0 < n == |s.cores| && |s.tasks| == n + 2 && !Eligible(s.tasks[n]) && s.tasks[n + 1] == NewBorn()
    ensures Select(s.tasks, n) == (s.tasks, Some(n + 1)) && SomeReady(s)
  {
    ScanIsBest(s.tasks, n, |s.tasks|);
    assert Listed(s, n + 1) && Eligible(s.tasks[n + 1]);
  }

  /** schedule(), with a tick that arrives after preempt_disable. */
  lemma TickInside(s: State, c: nat, y: nat) returns (s': State)
    requires Inv(s) && AtWork(s, c, y)
    ensures Leads(s, s') && Sane(s') && Enabled(s', Pick(c)) && RestKept(s, s', y, y) && s'.cores == s.cores
    ensures s'.tasks[y].counter == -1 && s'.tasks[y].state == Running && s'.tasks[y].onCpu == c
  {
    var s1 := YieldToChoice(s, c, y);
    LeadsInv(s, s1);
    AtChoice(s1, c);
    TickInSwitch(s1, c);
    hide Inv, Leads;
    LeadsStep(s1, Tick(c));
    s' := Apply(s1, Tick(c));
    LeadsThen(s, s1, s');
  }

  ghost predicate Stranded(s: State, t: nat) { Listed(s, t) && PassedOver(s.tasks[t]) && !Recovers(s, t) }

  /**
   * From boot, on any number of cores: of two new tasks the first gives up its slice and a tick arrives inside
   * _schedule; it stays RUNNING and saved, and never runs again without a fork or a wake-up.
   */
  lemma StrandsTask(s0: State)
    requires Boot(s0)
    ensures exists s: State :: Reaches(s0, s) && Stranded(s, |s0.tasks|)
  {
    var n := |s0.tasks|;
    hide *;
    var s1 := TwoForks(s0);
    ReachesInv(s0, s1);
    var s2 := FirstWorks(s1, n);
    LeadsInv(s1, s2);
    var s3 := TickInside(s2, 0, n);
    LeadsInv(s2, s3);
    var s4 := SecondWorks(s1, s2, s3, n);
    LeadsInv(s3, s4);
    ReachesLeads(s0, s1, s2);
    ReachesLeads(s0, s2, s3);
    ReachesLeads(s0, s3, s4);
    NeverRecovers(s4, n);
    StrandedHere(s4, n);
  }

  lemma StrandedHere(s: State, t: nat)
    requires Listed(s, t) && PassedOver(s.tasks[t]) && !Recovers(s, t)
    ensures Stranded(s, t)
  {}

  lemma ReachesInv(s0: State, s: State)
    requires Reaches(s0, s)
    ensures Inv(s)
  {}

  lemma FirstWorks(s: State, n: nat) returns (s': State)
    requires Inv(s) && Sane(s) && Starting(s, n, 1, 0, [Entered], 2)
    ensures Leads(s, s') && Sane(s') && AtWork(s', 0, n) && |s'.cores| == |s.cores| && |s'.tasks| == |s.tasks|
    ensures s'.tasks[n + 1] == NewBorn()
  {
    StartingPicks(s, n);
    hide Inv, Leads, Select, SomeReady, AtWork, Enabled, Sane;
    FirstTaken(s, n);
    var b;
    s', b := GiveWay(s, 0);
  }

  lemma StartingPicks(s: State, n: nat)
    requires Sane(s) && Starting(s, n, 1, 0, [Entered], 2)
    ensures Enabled(s, Pick(0))
  {}

  lemma SecondWorks(s1: State, s2: State, s: State, n: nat) returns (s': State)
    requires Inv(s) && Sane(s) && Enabled(s, Pick(0)) && RestKept(s2, s, n, n) && s.cores == s2.cores
    requires AtWork(s2, 0, n)
    requires Starting(s1, n, 1, 0, [Entered], 2) && |s2.cores| == |s1.cores| && |s2.tasks| == |s1.tasks|
    requires s2.tasks[n + 1] == NewBorn()
    requires s.tasks[n].counter == -1 && s.tasks[n].state == Running && s.tasks[n].onCpu == 0
    ensures Leads(s, s') && Sane(s') && Listed(s', n) && PassedOver(s'.tasks[n]) && !Alternates(s')
  {
    SecondTaken(s, n);
    hide Inv, Leads, Select, SomeReady, Enabled;
    var b;
    s', b := GiveWay(s, 0);
    assert s'.tasks[n] == Parking(s.tasks[n]) && s'.tasks[n + 1].onCpu == 0 && s'.tasks[n + 1].sched == [];
    forall i | Listed(s', i) ensures !Eligible(s'.tasks[i]) && !Passing(s'.tasks[i]) {}
    NothingReady(s');
  }
}
