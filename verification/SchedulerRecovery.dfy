/** What it takes for a waiting task to run again without a fork or a wake-up; without it, it never does. */
module SchedulingRecovery {
  import opened Basics
  import opened Scheduling
  import opened SchedulingProofs
  import opened SchedulingRuns
  import opened SchedulingFates

  /** No task is created and none is woken. */
  predicate Closed(step: Step) { !step.Fork? && !step.Wake? }

  /** Some run of closed steps leads from `s` to `s'`. */
  ghost predicate Leads(s: State, s': State) {
    Inv(s) && Inv(s') && exists steps: seq<Step> :: Run(s, steps, s') && forall i | 0 <= i < |steps| :: Closed(steps[i])
  }

  /** Some run of closed steps puts task `t` on a core. */
  ghost predicate Recovers(s: State, t: nat) {
    exists s': State :: Leads(s, s') && t < |s'.tasks| && s'.tasks[t].onCpu != -1
  }

  // ---- the tasks that can help

  predicate Listed(s: State, i: int) { |s.cores| <= i < |s.tasks| }

  /** Will go off-cpu eligible: its core has claimed another task, and its counter is not negative. */
  predicate Passing(r: Task) {
    r.state == Running && r.counter >= 0 && Top(r).Some? && (Top(r).value.Claimed? || Top(r).value.Switching?)
  }

  /** On a core, and not about to give it up with a negative counter. */
  predicate Working(r: Task) {
    r.state == Running && r.onCpu != -1 && !(r.sched == [Entered] && r.counter < 0)
  }

  /** One recharge lifts its counter to 0 or above; it is off-cpu, or before the choice that may park it. */
  predicate Liftable(r: Task) {
    r.state == Running && r.counter < 0 && Recharged(r).counter >= 0 && (r.onCpu == -1 || r.sched == [Entered])
  }

  ghost predicate SomePassing(s: State) { exists i :: Listed(s, i) && Passing(s.tasks[i]) }
  ghost predicate SomeWorking(s: State) { exists i :: Listed(s, i) && Working(s.tasks[i]) }
  ghost predicate SomeLiftable(s: State) { exists i :: Listed(s, i) && Liftable(s.tasks[i]) }
  ghost predicate SomeReady(s: State) { exists i :: Listed(s, i) && Eligible(s.tasks[i]) }
  ghost predicate SomeReadyZero(s: State) { exists i ::
    Listed(s, i) && Eligible(s.tasks[i]) && s.tasks[i].counter == 0 }
  ghost predicate TwoReady(s: State) {
    exists i, j :: Listed(s, i) && Listed(s, j) && i != j && Eligible(s.tasks[i]) && Eligible(s.tasks[j])
  }

  /** Two tasks will take turns on one core, so that their counters reach 0 again and again. */
  ghost predicate Alternates(s: State) {
    SomePassing(s) || TwoReady(s) || (SomeReady(s) && SomeWorking(s)) || (SomeReadyZero(s) && SomeLiftable(s))
  }

  // ---- what one step of the task's own core does to a record

  /** What a step must not bring about out of nothing. */
  predicate NoGain(r: Task, r': Task) {
    && (Eligible(r') ==> r' == r || Passing(r))
    && (Working(r') ==> Working(r))
    && (Passing(r') ==> Passing(r))
    && (Liftable(r') ==> Liftable(r) || Working(r))
  }

  lemma HalfMono(a: int, b: int)
    requires a <= b
    ensures a / 2 <= b / 2
  {}

  lemma OwnGain(s: State, step: Step, i: nat)
    requires Inv(s) && Enabled(s, step) && Listed(s, i) && !OffCore(s, step.c, i)
    requires step.Disable? || step.Enable? || step.Yield? || step.Leave? || step.Die? || step.Block?
    ensures i < |Apply(s, step).tasks| && NoGain(s.tasks[i], Apply(s, step).tasks[i])
  {
    assert CoreOk(s, step.c) && TaskOk(Thread(s, step.c), s.cores[step.c].thread, |s.cores|);
    BaseIs(s, step);
  }

  lemma EnterGain(s: State, c: nat, i: nat)
    requires Inv(s) && Enabled(s, Enter(c)) && Listed(s, i) && !OffCore(s, c, i)
    ensures i < |Apply(s, Enter(c)).tasks| && NoGain(s.tasks[i], Apply(s, Enter(c)).tasks[i])
  {
    assert CoreOk(s, c) && TaskOk(Thread(s, c), s.cores[c].thread, |s.cores|);
  }

  lemma TickGain(s: State, c: nat, i: nat)
    requires Inv(s) && c < |s.cores| && Listed(s, i) && !OffCore(s, c, i)
    ensures i < |ApplyTick(s, c).tasks| && NoGain(s.tasks[i], ApplyTick(s, c).tasks[i])
  {
    assert CoreOk(s, c) && TaskOk(Thread(s, c), s.cores[c].thread, |s.cores|);
    assert TaskOk(Current(s, c), s.cores[c].current, |s.cores|);
    HalfMono(s.tasks[i].counter - 1, s.tasks[i].counter);
  }

  lemma SwitchGain(s: State, step: Step, i: nat)
    requires Inv(s) && Enabled(s, step) && Listed(s, i) && !OffCore(s, step.c, i)
    requires step.SetCurrent? || step.SwitchOut? || step.ChooseIdle? || step.SetIdle? || step.SwitchToIdle?
    ensures i < |Apply(s, step).tasks| && NoGain(s.tasks[i], Apply(s, step).tasks[i])
  {
    assert CoreOk(s, step.c) && TaskOk(Thread(s, step.c), s.cores[step.c].thread, |s.cores|);
    assert TaskOk(Current(s, step.c), s.cores[step.c].current, |s.cores|);
  }

  lemma StepGain(s: State, step: Step, i: nat)
    requires Inv(s) && Enabled(s, step) && Closed(step) && !step.Pick? && Listed(s, i)
    ensures i < |Apply(s, step).tasks| && NoGain(s.tasks[i], Apply(s, step).tasks[i])
  {
    assert Sane(s);
    hide Inv, Enabled, Apply, NoGain, Sane, OffCore;
    SameGain(s.tasks[i]);
    if OffCore(s, step.c, i) {
      KeptStep(s, step, i);
    } else {
      match step {
        case Enter(c) => EnterGain(s, c, i);
        case Tick(c) => TickHere(s, c, i);
        case SetCurrent(_) => SwitchGain(s, step, i);
        case SwitchOut(_) => SwitchGain(s, step, i);
        case ChooseIdle(_) => SwitchGain(s, step, i);
        case SetIdle(_) => SwitchGain(s, step, i);
        case SwitchToIdle(_) => SwitchGain(s, step, i);
        case _ => OwnGain(s, step, i);
      }
    }
  }

  lemma TickHere(s: State, c: nat, i: nat)
    requires Inv(s) && Enabled(s, Tick(c)) && Listed(s, i) && !OffCore(s, c, i)
    ensures i < |Apply(s, Tick(c)).tasks| && NoGain(s.tasks[i], Apply(s, Tick(c)).tasks[i])
  {
    TickGain(s, c, i);
  }

  lemma SameGain(r: Task)
    ensures NoGain(r, r)
  {}

  /** A step that is not a choice brings nothing about that was not there. */
  lemma GainsKept(s: State, s': State)
    requires |s'.cores| == |s.cores| && |s'.tasks| == |s.tasks|
    requires forall i | Listed(s, i) :: NoGain(s.tasks[i], s'.tasks[i])
    ensures Alternates(s') ==> Alternates(s)
    ensures SomePassing(s') ==> SomePassing(s)
    ensures SomeReady(s') ==> SomeReady(s) || SomePassing(s)
  {
    forall i | Listed(s', i) ensures Listed(s, i) && NoGain(s.tasks[i], s'.tasks[i]) {}
  }

  // ---- what a choice does

  /** The records a choice works on: as they were, or all recharged because the largest counter was 0. */
  lemma ChoiceIs(s: State, c: nat)
    requires Inv(s) && Enabled(s, Pick(c))
    ensures |s.cores| <= |s.tasks|
    ensures var (ts, next) := Select(s.tasks, |s.cores|);
      && (ts == s.tasks || (ts == Recharge(s.tasks, |s.cores|) && SomeReadyZero(s)))
      && (next.Some? <==> SomeReady(s)) && (next.None? ==> ts == s.tasks)
      && (next.Some? ==> Listed(s, next.value) && Eligible(ts[next.value]) && s.tasks[next.value].onCpu == -1)
  {
    PrioritiesPositive(s);
    SelectIs(s.tasks, |s.cores|);
    ScanIsBest(s.tasks, |s.cores|, |s.tasks|);
    var best := Scan(s.tasks, |s.cores|, |s.tasks|);
    assert best.Some? ==> Listed(s, best.value) && Eligible(s.tasks[best.value]);
    if SomeReady(s) {
      var i :| Listed(s, i) && Eligible(s.tasks[i]);
      assert SomeEligible(s.tasks, |s.cores|);
    }
  }

  /** The core's own thread moves on; everybody else's record is the one worked on, but for the task claimed. */
  lemma ChoiceRecords(s: State, c: nat)
    requires Inv(s) && Enabled(s, Pick(c))
    ensures var (ts, next), s', e := Select(s.tasks, |s.cores|), Apply(s, Pick(c)), s.cores[c].thread;
      && |s'.tasks| == |s.tasks| && s'.cores == s.cores && e < |s.tasks|
      && s.tasks[e].sched == [Entered] && s.tasks[e].onCpu == c
      && s'.tasks[e] == ts[e].(sched := [if next.Some? then Claimed(next.value) else Leaving])
      && forall i | Listed(s, i) && i != e ::
           s'.tasks[i] == if next == Some(i) then ts[i].(onCpu := c) else ts[i]
  {
    hide Inv, Enabled, Apply, Select, Eligible, Recharge, SomeReady, SomeReadyZero, WithClaim, WithThread, Sane;
    hide AtPhase;
    AtChoice(s, c);
    ChoiceIs(s, c);
    var (ts, next) := Select(s.tasks, |s.cores|);
    RechargeLike(s, ts);
    PickIs(s, c, ts, next);
    if next.Some? {
      ClaimRecords(s.(tasks := ts), c, next.value);
    } else {
      LeavingRecords(s.(tasks := ts), c);
    }
  }

  lemma ClaimRecords(s: State, c: nat, n: nat)
    requires Sane(s) && c < |s.cores| && n < |s.tasks| && n != s.cores[c].thread && Thread(s, c).sched == [Entered]
    ensures var s', e := WithClaim(s, c, n), s.cores[c].thread;
      && |s'.tasks| == |s.tasks| && s'.cores == s.cores
      && s'.tasks[e] == s.tasks[e].(sched := [Claimed(n)])
      && forall i | Listed(s, i) && i != e :: s'.tasks[i] == if i == n then s.tasks[i].(onCpu := c) else s.tasks[i]
  {
    assert AtPhase(Thread(s, c), Claimed(n)).sched == [Claimed(n)];
  }

  lemma LeavingRecords(s: State, c: nat)
    requires Sane(s) && c < |s.cores| && Thread(s, c).sched == [Entered]
    ensures var s', e := WithThread(s, c, AtPhase(Thread(s, c), Leaving)), s.cores[c].thread;
      && |s'.tasks| == |s.tasks| && s'.cores == s.cores
      && s'.tasks[e] == s.tasks[e].(sched := [Leaving])
      && forall i | Listed(s, i) && i != e :: s'.tasks[i] == s.tasks[i]
  {
    assert AtPhase(Thread(s, c), Leaving).sched == [Leaving];
  }

  lemma AtChoice(s: State, c: nat)
    requires Inv(s) && Enabled(s, Pick(c))
    ensures var e := s.cores[c].thread;
      c < |s.cores| <= |s.tasks| && e < |s.tasks| && s.cores[c].current == e && s.tasks[e].sched ==
        [Entered] && s.tasks[e].onCpu == c
    ensures forall i | Listed(s, i) && s.tasks[i].onCpu == -1 :: i != s.cores[c].thread
  {
    assert CoreOk(s, c) && TaskOk(Thread(s, c), s.cores[c].thread, |s.cores|);
  }

  // ---- never

  /** A choice that recharges for the only task it can take, and lifts nobody else, leaves nothing to alternate with. */
  lemma ChoiceStays(s: State, c: nat)
    requires Inv(s) && Enabled(s, Pick(c)) && !Alternates(s)
    ensures var s' := Apply(s, Pick(c));
      && |s'.tasks| == |s.tasks| && s'.cores == s.cores
      && forall i | Listed(s, i) :: !Eligible(s'.tasks[i]) && !Passing(s'.tasks[i])
  {
    ChoiceIs(s, c);
    ChoiceRecords(s, c);
    hide Inv, Enabled, Apply, Select, SomeReady, SomeReadyZero;
    var s' := Apply(s, Pick(c));
    forall i | Listed(s, i) ensures !Eligible(s'.tasks[i]) && !Passing(s'.tasks[i]) {
      ChoiceLeaves(s, c, i);
    }
  }

  lemma ChoiceLeaves(s: State, c: nat, i: nat)
    requires Inv(s) && Enabled(s, Pick(c)) && !Alternates(s) && Listed(s, i)
    ensures |Apply(s, Pick(c)).tasks| == |s.tasks|
    ensures !Eligible(Apply(s, Pick(c)).tasks[i]) && !Passing(Apply(s, Pick(c)).tasks[i])
  {
    hide Inv, Enabled, Apply, Select, SomeReady, SomeReadyZero, Recharge, Alternates, Sane;
    var (ts, next) := Select(s.tasks, |s.cores|);
    ChoiceIs(s, c);
    ChoiceRecords(s, c);
    OffCpuParked(s, i);
    ChoiceLike(s, i);
    if next.None? {
      NoneReady(s, i);
    } else {
      NotLifted(s, ts, i);
      NotLifted(s, ts, next.value);
      NoneReady(s, i);
      if i != next.value {
        OnlyOneReady(s, i, next.value);
      }
    }
  }

  lemma ChoiceLike(s: State, i: nat)
    requires Inv(s) && Listed(s, i)
    ensures var ts := Select(s.tasks, |s.cores|).0; ts[i] == s.tasks[i].(counter := ts[i].counter)
  {
    RechargeLike(s, Select(s.tasks, |s.cores|).0);
  }

  lemma OffCpuParked(s: State, i: nat)
    requires Inv(s) && Listed(s, i)
    ensures s.tasks[i].onCpu == -1 && s.tasks[i].state != Zombie ==> s.tasks[i].sched == [Parked]
  {
    if s.tasks[i].onCpu == -1 && s.tasks[i].state != Zombie {
      ClaimableParked(s, i);
    }
  }

  lemma NoneReady(s: State, i: nat)
    requires !Alternates(s) && Listed(s, i)
    ensures !SomeReady(s) ==> !Eligible(s.tasks[i])
    ensures !Passing(s.tasks[i])
  {
    assert SomePassing(s) ==> Alternates(s);
  }

  lemma OnlyOneReady(s: State, i: nat, j: nat)
    requires !Alternates(s) && Listed(s, i) && Listed(s, j) && Eligible(s.tasks[j]) && i != j
    ensures !Eligible(s.tasks[i])
  {
    assert TwoReady(s) ==> Alternates(s);
  }

  /** Of the records a choice works on, only the one taken is eligible. */
  lemma NotLifted(s: State, ts: seq<Task>, i: nat)
    requires !Alternates(s) && SomeReady(s) && Listed(s, i) && |ts| == |s.tasks| && |s.cores| <= |s.tasks|
    requires ts == s.tasks || (ts == Recharge(s.tasks, |s.cores|) && SomeReadyZero(s))
    ensures Eligible(ts[i]) ==> Eligible(s.tasks[i])
    ensures !Working(s.tasks[i])
    ensures s.tasks[i].sched == [Entered] && s.tasks[i].state == Running && s.tasks[i].onCpu != -1 ==> ts[i].counter < 0
    ensures s.tasks[i].state == Running && s.tasks[i].onCpu == -1 && s.tasks[i].counter < 0 ==> ts[i].counter < 0
  {
    assert SomeWorking(s) ==> Alternates(s);
    assert !Working(s.tasks[i]);
    if SomeReadyZero(s) {
      assert SomeLiftable(s) ==> Alternates(s);
      assert !Liftable(s.tasks[i]);
    }
  }

  /** Nothing that could alternate comes about; so a task with a negative counter stays passed over. */
  lemma NeverStep(s: State, step: Step, t: nat)
    requires Inv(s) && Enabled(s, step) && Closed(step) && !Alternates(s) && Listed(s, t) && PassedOver(s.tasks[t])
    ensures var s' := Apply(s, step); !Alternates(s') && Listed(s', t) && PassedOver(s'.tasks[t])
  {
    var s' := Apply(s, step);
    assert Sane(s);
    TaskCount(s, step);
    OffCpuOff(s, t);
    hide Inv, Enabled, Apply, Alternates, NoGain;
    if step.Pick? {
      ChoiceStays(s, step.c);
      NothingReady(s');
      PassedStays(s, step.c, t);
    } else {
      forall i | Listed(s, i) ensures NoGain(s.tasks[i], s'.tasks[i]) {
        StepGain(s, step, i);
      }
      GainsKept(s, s');
      KeptStep(s, step, t);
    }
  }

  lemma NothingReady(s: State)
    requires forall i | Listed(s, i) :: !Eligible(s.tasks[i]) && !Passing(s.tasks[i])
    ensures !Alternates(s) && !SomeReady(s) && !SomePassing(s)
  {}

  lemma PassedStays(s: State, c: nat, t: nat)
    requires Inv(s) && Enabled(s, Pick(c)) && !Alternates(s) && Listed(s, t) && PassedOver(s.tasks[t])
    ensures var s' := Apply(s, Pick(c)); Listed(s', t) && PassedOver(s'.tasks[t])
  {
    var (ts, next) := Select(s.tasks, |s.cores|);
    ChoiceIs(s, c);
    ChoiceRecords(s, c);
    hide Inv, Enabled, Apply, Select, Recharge, SomeReadyZero;
    if next.Some? {
      NotLifted(s, ts, t);
    }
  }

  lemma {:induction false} NeverRun(s: State, steps: seq<Step>, s': State, t: nat)
    requires Inv(s) && Run(s, steps, s') && !Alternates(s) && Listed(s, t) && PassedOver(s.tasks[t])
    requires forall i | 0 <= i < |steps| :: Closed(steps[i])
    ensures t < |s'.tasks| && PassedOver(s'.tasks[t])
    decreases |steps|
  {
    hide Inv, Apply, Enabled, Alternates, Sane, Closed;
    if steps != [] {
      StepKeeps(s, steps[0]);
      NeverStep(s, steps[0], t);
      assert forall i | 0 <= i < |steps[1..]| :: steps[1..][i] == steps[i + 1];
      NeverRun(Apply(s, steps[0]), steps[1..], s', t);
    }
  }

  // ---- closed runs, put together

  lemma LeadsNone(s: State)
    requires Inv(s)
    ensures Leads(s, s)
  {
    assert Run(s, [], s);
  }

  lemma LeadsStep(s: State, step: Step)
    requires Inv(s) && Enabled(s, step) && Closed(step)
    ensures Leads(s, Apply(s, step)) && Sane(Apply(s, step))
  {
    RunExtends(s, step);
    StepKeeps(s, step);
    hide Apply, Enabled, Run;
    assert forall i | 0 <= i < |[step]| :: Closed([step][i]);
  }

  lemma {:induction false} RunThen(s: State, a: seq<Step>, t: State, b: seq<Step>, u: State)
    requires Run(s, a, t) && Run(t, b, u)
    ensures Run(s, a + b, u)
    decreases |a|
  {
    hide Apply, Enabled, Sane;
    if a == [] {
      assert a + b == b;
    } else {
      RunThen(Apply(s, a[0]), a[1..], t, b, u);
      assert (a + b)[1..] == a[1..] + b;
    }
  }

  lemma LeadsThen(s: State, t: State, u: State)
    requires Leads(s, t) && Leads(t, u)
    ensures Leads(s, u)
  {
    hide Inv, Run, Closed;
    var a :| Run(s, a, t) && forall i | 0 <= i < |a| :: Closed(a[i]);
    var b :| Run(t, b, u) && forall i | 0 <= i < |b| :: Closed(b[i]);
    RunThen(s, a, t, b, u);
    assert forall i | 0 <= i < |a + b| :: Closed((a + b)[i]);
  }

  lemma RecoversLater(s: State, s': State, t: nat)
    requires Leads(s, s') && Recovers(s', t)
    ensures Recovers(s, t)
  {
    hide Leads;
    var u :| Leads(s', u) && t < |u.tasks| && u.tasks[t].onCpu != -1;
    LeadsThen(s, s', u);
  }

  /** Every listed task but these two keeps its record. */
  ghost predicate RestKept(s: State, s': State, i: nat, j: nat) {
    && |s'.cores| == |s.cores| && |s'.tasks| == |s.tasks|
    && forall k | Listed(s, k) && k != i && k != j :: s'.tasks[k] == s.tasks[k]
  }

  /** A listed task that is off-cpu keeps its record. */
  ghost predicate OffKept(s: State, s': State) {
    && |s'.cores| == |s.cores| && |s'.tasks| == |s.tasks|
    && forall k | Listed(s, k) && s.tasks[k].onCpu == -1 :: s'.tasks[k] == s.tasks[k]
  }

  lemma OffKeptThen(s: State, t: State, u: State)
    requires OffKept(s, t) && OffKept(t, u)
    ensures OffKept(s, u)
  {
    forall k | Listed(s, k) && s.tasks[k].onCpu == -1 ensures u.tasks[k] == s.tasks[k] {
      assert t.tasks[k] == s.tasks[k];
    }
  }

  /** A step that is not a choice touches only the thread and the current task of its core. */
  lemma StepRest(s: State, step: Step)
    requires Inv(s) && Enabled(s, step) && Closed(step) && !step.Pick?
    ensures Sane(s) && step.c < |s.cores|
    ensures RestKept(s, Apply(s, step), s.cores[step.c].thread, s.cores[step.c].current)
    ensures OffKept(s, Apply(s, step))
  {
    assert Sane(s);
    TaskCount(s, step);
    hide Enabled, Apply, Inv;
    forall k | Listed(s, k) && k != s.cores[step.c].thread && k != s.cores[step.c].current
      ensures Apply(s, step).tasks[k] == s.tasks[k]
    {
      KeptStep(s, step, k);
    }
    forall k | Listed(s, k) && s.tasks[k].onCpu == -1 ensures Apply(s, step).tasks[k] == s.tasks[k] {
      OffCpuOff(s, k);
    }
  }
}
