/** Timer ticks: when they only count, when they preempt, and that a slice ends. */
module SchedulingTicks {
  import opened Basics
  import opened Scheduling
  import opened SchedulingProofs
  import opened SchedulingRuns
  import opened SchedulingFates
  import opened SchedulingRecovery

  /** The tick finds the slice over and preemption enabled. */
  predicate Preempts(t: Task) { t.counter <= 1 && t.preempt == 0 }

  /**
   * A tick touches the current task of its core and nothing else. If its counter is at most 1 and preemption is
   * enabled, the counter is 0 and the task is inside _schedule with preemption disabled, about to choose; in every
   * other case the counter is one lower.
   */
  lemma TickMeans(s: State, c: nat)
    requires Inv(s) && c < |s.cores|
    ensures Sane(s) && Enabled(s, Tick(c)) && Sane(Apply(s, Tick(c)))
    ensures Preempts(Current(s, c)) ==>
      && Apply(s, Tick(c)) == WithCurrent(s, c, Current(s, c).(counter := 0, preempt := 1, sched := [Entered]))
      && s.cores[c].current == s.cores[c].thread && Current(s, c).sched == [] && Enabled(Apply(s, Tick(c)), Pick(c))
    ensures !Preempts(Current(s, c)) ==>
      Apply(s, Tick(c)) == WithCurrent(s, c, Current(s, c).(counter := Current(s, c).counter - 1))
  {
    assert CoreOk(s, c) && TaskOk(Current(s, c), s.cores[c].current, |s.cores|);
    TickKeeps(s, c);
    if Thread(s, c).sched != [] || Thread(s, c).exit == IdleCurrent {
      TickInSwitch(s, c);
    } else {
      OwnThread(s, c);
      assert [] + [Entered] == [Entered];
    }
  }

  // ---- ticks in a row

  ghost function Ticked(s: State, c: nat, n: nat): (r: State)
    requires Inv(s) && c < |s.cores|
    ensures Inv(r)
    decreases n
  {
    if n == 0 then s
    else
      TickKeeps(s, c);
      TickCores(s, c);
      Ticked(Apply(s, Tick(c)), c, n - 1)
  }

  lemma TickCores(s: State, c: nat)
    requires Inv(s) && c < |s.cores|
    ensures Apply(s, Tick(c)).cores == s.cores && |Apply(s, Tick(c)).tasks| == |s.tasks|
  {}

  function Counted(s: State, c: nat, n: nat): State
    requires Sane(s) && c < |s.cores|
  {
    WithCurrent(s, c, Current(s, c).(counter := Current(s, c).counter - n))
  }

  /** While preemption is disabled, or the slice lasts, ticks only count. */
  lemma {:induction false} CountDown(s: State, c: nat, n: nat)
    requires Inv(s) && c < |s.cores| && (Current(s, c).preempt > 0 || n == 0 || n < Current(s, c).counter)
    ensures Ticked(s, c, n) == Counted(s, c, n)
    decreases n
  {
    hide Inv, Apply, Enabled;
    TickMeans(s, c);
    if n == 0 {
      CountedNone(s, c);
    } else {
      var s1 := Apply(s, Tick(c));
      TickKeeps(s, c);
      CountDown(s1, c, n - 1);
      CountedMore(s, c, n - 1);
    }
  }

  lemma CountedNone(s: State, c: nat)
    requires Sane(s) && c < |s.cores|
    ensures Counted(s, c, 0) == s
  {
    assert Counted(s, c, 0).tasks == s.tasks;
  }

  lemma CountedMore(s: State, c: nat, n: nat)
    requires Sane(s) && c < |s.cores| && Sane(Counted(s, c, 1))
    ensures Counted(Counted(s, c, 1), c, n) == Counted(s, c, n + 1)
  {
    assert Counted(Counted(s, c, 1), c, n).tasks == Counted(s, c, n + 1).tasks;
  }

  lemma {:induction false} TickedMore(s: State, c: nat, n: nat)
    requires Inv(s) && c < |s.cores|
    ensures |Ticked(s, c, n).cores| == |s.cores| && Ticked(s, c, n + 1) == Apply(Ticked(s, c, n), Tick(c))
    decreases n
  {
    TickKeeps(s, c);
    TickCores(s, c);
    hide Inv, Apply;
    if n > 0 {
      TickedMore(Apply(s, Tick(c)), c, n - 1);
    }
  }

  /** Between preempt_disable and preempt_enable ticks only count, however many there are; and preempt_enable undoes
      preempt_disable. */
  lemma DisabledCounts(s: State, c: nat, n: nat)
    requires Inv(s) && Enabled(s, Disable(c))
    ensures var s1 := Apply(s, Disable(c));
      && Inv(s1) && |s1.cores| == |s.cores| && Ticked(s1, c, n) == Counted(s1, c, n)
      && Enabled(s1, Enable(c)) && Apply(s1, Enable(c)) == s
  {
    var s1 := Apply(s, Disable(c));
    BaseStep(s, Disable(c));
    assert CoreOk(s, c) && TaskOk(Thread(s, c), s.cores[c].thread, |s.cores|);
    assert Apply(s1, Enable(c)).tasks == s.tasks;
    hide Inv, Apply, Enabled, Ticked;
    CountDown(s1, c, n);
  }

  /** The number of ticks a task has left. */
  function Slice(t: Task): nat { if t.counter > 1 then t.counter else 1 }

  /** A task that runs with preemption enabled is left alone for the ticks of its slice but the last, and the last one
      brings its core to a choice; which takes the best ready task, if there is one. */
  lemma SliceEnds(s: State, c: nat, n: nat)
    requires Inv(s) && c < |s.cores| && Current(s, c).preempt == 0
    ensures n < Slice(Current(s, c)) ==> Ticked(s, c, n) == Counted(s, c, n)
    ensures n == Slice(Current(s, c)) ==> Enabled(Ticked(s, c, n), Pick(c))
    ensures n == Slice(Current(s, c)) && SomeReady(s) ==>
      var s' := Apply(Ticked(s, c, n), Pick(c)); Sane(s') && c < |s'.cores| && Target(s', c).Some?
  {
    InvSane(s);
    hide Inv, Apply, Enabled, SomeReady, Ticked, Counted, Target;
    if n < Slice(Current(s, c)) {
      CountDown(s, c, n);
    } else if n == Slice(Current(s, c)) {
      LastTick(s, c, n);
      if SomeReady(s) {
        ReadyTicked(s, c, n);
        PickTakes(Ticked(s, c, n), c);
      }
    }
  }

  lemma LastTick(s: State, c: nat, k: nat)
    requires Inv(s) && c < |s.cores| && Current(s, c).preempt == 0 && k == Slice(Current(s, c))
    ensures Enabled(Ticked(s, c, k), Pick(c))
  {
    InvSane(s);
    hide Inv, Apply, Enabled, Ticked;
    CountDown(s, c, k - 1);
    TickedMore(s, c, k - 1);
    TickMeans(Ticked(s, c, k - 1), c);
  }

  lemma ReadyTick(s: State, c: nat)
    requires Inv(s) && c < |s.cores| && SomeReady(s)
    ensures SomeReady(Apply(s, Tick(c)))
  {
    var i :| Listed(s, i) && Eligible(s.tasks[i]);
    assert CoreOk(s, c);
    TickMeans(s, c);
    hide Inv, Apply;
    assert Apply(s, Tick(c)).tasks[i] == s.tasks[i];
  }

  lemma {:induction false} ReadyTicked(s: State, c: nat, n: nat)
    requires Inv(s) && c < |s.cores| && SomeReady(s)
    ensures SomeReady(Ticked(s, c, n))
    decreases n
  {
    TickKeeps(s, c);
    TickCores(s, c);
    hide Inv, Apply, SomeReady;
    if n > 0 {
      ReadyTick(s, c);
      ReadyTicked(Apply(s, Tick(c)), c, n - 1);
    }
  }

  lemma PickTakes(s: State, c: nat)
    requires Inv(s) && Enabled(s, Pick(c)) && SomeReady(s)
    ensures Sane(Apply(s, Pick(c))) && c < |Apply(s, Pick(c)).cores| && Target(Apply(s, Pick(c)), c).Some?
  {
    PickChooses(s, c);
    hide Inv, Apply, Select, Enabled;
    var i :| Listed(s, i) && Eligible(s.tasks[i]);
  }
}
